/** The files cache: which files were backed up before and with which chunks. Its risk is
    to call a changed file unchanged; the last part of this module shows that it does not
    over any history of backups and file changes in which ctimes are compared. */
module FilesCache {
  import opened Bytes
  import opened Msgpack

  type Key = bytes

  /** Three seconds: clocks disagree and some filesystems keep coarse times. */
  const TIME_DIFFERS: int := 3_000_000_000
  const MAX_TIME: int := 0x7fff_ffff_ffff_ffff

  datatype Mode = Mode(disabled: bool, rechunk: bool, size: bool, inode: bool, ctime: bool, mtime: bool)

  datatype ChunkRef = ChunkRef(id: bytes, size: int)

  datatype Entry = Entry(age: int, inode: int, size: int, ctime: int, mtime: int, chunks: seq<ChunkRef>)

  /** The part of stat() the cache compares. */
  datatype FileInfo = FileInfo(size: int, inode: int, ctime: int, mtime: int)

  datatype Cache = Cache(
    mode: Mode, entries: map<Key, Entry>, newest: int, newestPaths: set<Key>, start: int, ttl: int,
    hits: nat, misses: nat)

  /** The empty chunk list is nil: the caller takes it for a changed file. */
  datatype Found = Found(known: bool, chunks: seq<ChunkRef>)

  // ---------------------------------------------------------------- what each call does

  predicate Changed(m: Mode, e: Entry, st: FileInfo) {
    (m.size && e.size != st.size) || (m.inode && e.inode != st.inode)
    || (m.ctime && e.ctime != st.ctime) || (m.mtime && e.mtime != st.mtime)
  }

  function Newer(c: Cache, key: Key, t: int): Cache {
    if t > c.newest then c.(newest := t, newestPaths := {key})
    else if t == c.newest then c.(newestPaths := c.newestPaths + {key})
    else c
  }

  function RecordNewest(c: Cache, key: Key, ctime: int, mtime: int): (c': Cache)
    ensures c'.(newest := c.newest, newestPaths := c.newestPaths) == c && c.newest <= c'.newest
  {
    Newer(Newer(c, key, ctime), key, mtime)
  }

  /** An unchanged entry is confirmed: it learns the values that were not compared. */
  function Confirmed(e: Entry, st: FileInfo): Entry {
    e.(age := 0, inode := st.inode, ctime := st.ctime, mtime := st.mtime)
  }

  predicate Unchanged(c: Cache, key: Key, st: FileInfo) {
    !c.mode.disabled && !c.mode.rechunk && key in c.entries && !Changed(c.mode, c.entries[key], st)
  }

  function LookupResult(c: Cache, key: Key, st: FileInfo): Found {
    if Unchanged(c, key, st) then Found(true, c.entries[key].chunks)
    else Found(!c.mode.disabled && !c.mode.rechunk && key in c.entries, [])
  }

  function AfterLookup(c: Cache, key: Key, st: FileInfo): Cache {
    if !Unchanged(c, key, st) then c.(misses := c.misses + 1)
    else
      RecordNewest(
        c.(entries := c.entries[key := Confirmed(c.entries[key], st)], hits := c.hits + 1), key, st.ctime, st.mtime)
  }

  function AfterMemorize(c: Cache, key: Key, st: FileInfo, chunks: seq<ChunkRef>): Cache {
    if c.mode.disabled then c
    else
      RecordNewest(
        c.(entries := c.entries[key := Entry(0, st.inode, st.size, st.ctime, st.mtime, chunks)]),
        key, st.ctime, st.mtime)
  }

  /** An entry confirmed this run is trusted only if its file's newest time is older than
      this: the newest time seen, and the start of the backup less three seconds. */
  function DiscardAfter(c: Cache): int {
    var d := if c.newest != 0 then c.newest else MAX_TIME;
    if c.start != 0 && c.start - TIME_DIFFERS < d then c.start - TIME_DIFFERS else d
  }

  predicate Kept(c: Cache, e: Entry) {
    if e.age == 0 then e.ctime < DiscardAfter(c) && e.mtime < DiscardAfter(c) else e.age < c.ttl
  }

  /** What a saved cache holds: the kept entries, one backup older. */
  function Saved(c: Cache): map<Key, Entry> {
    map k | k in c.entries && Kept(c, c.entries[k]) :: c.entries[k].(age := c.entries[k].age + 1)
  }

  function NewCache(mode: Mode, start: int, ttl: int): Cache {
    Cache(mode, map[], 0, {}, start, ttl, 0, 0)
  }

  /** Starting from what was saved; a disabled cache reads nothing. */
  function Loaded(mode: Mode, start: int, ttl: int, disk: map<Key, Entry>): Cache {
    if mode.disabled then NewCache(mode, start, ttl) else NewCache(mode, start, ttl).(entries := disk)
  }

  /** A lookup answers from an entry exactly if the cache is in use and all that the mode
      names is as it was; else it says whether there is an entry. */
  lemma LookupIff(c: Cache, key: Key, st: FileInfo)
    ensures var e := if key in c.entries then c.entries[key] else Entry(0, 0, 0, 0, 0, []);
      var trusted := key in c.entries && !c.mode.disabled && !c.mode.rechunk;
      var same := (c.mode.size ==> e.size == st.size) && (c.mode.inode ==> e.inode == st.inode)
                  && (c.mode.ctime ==> e.ctime == st.ctime) && (c.mode.mtime ==> e.mtime == st.mtime);
      LookupResult(c, key, st) == Found(trusted, if trusted && same then e.chunks else [])
  {
  }

  /** The newest time after one more file, and the paths that have it. */
  ghost predicate NewestWith(c: Cache, key: Key, st: FileInfo, c': Cache) {
    && c'.newest >= c.newest && c'.newest >= st.ctime && c'.newest >= st.mtime
    && c'.newest in {c.newest, st.ctime, st.mtime}
    && forall k :: k in c'.newestPaths <==>
      (k in c.newestPaths && c'.newest == c.newest) || (k == key && c'.newest in {st.ctime, st.mtime})
  }

  /** Files found unchanged and files memorized count for the newest time, others do not;
      and every lookup is a hit or a miss. */
  lemma LookupAccounts(c: Cache, key: Key, st: FileInfo)
    ensures var c' := AfterLookup(c, key, st); var hit := Unchanged(c, key, st);
      && (if hit then NewestWith(c, key, st, c') else c'.newest == c.newest && c'.newestPaths == c.newestPaths)
      && c'.hits == (if hit then c.hits + 1 else c.hits) && c'.misses == if hit then c.misses else c.misses + 1
  {
  }

  lemma MemorizeAccounts(c: Cache, key: Key, st: FileInfo, chunks: seq<ChunkRef>)
    requires !c.mode.disabled
    ensures NewestWith(c, key, st, AfterMemorize(c, key, st, chunks))
  {
  }

  /** What is saved of the entries confirmed in this run: those both of whose times lie
      before every time seen, and before the start of the backup by more than three seconds. */
  lemma KeptIff(c: Cache, e: Entry)
    ensures var before := (t: int) => e.ctime < t && e.mtime < t;
      Kept(c, e) <==>
      if e.age != 0 then e.age < c.ttl
      else
        && (c.newest != 0 ==> before(c.newest)) && (c.start != 0 ==> before(c.start - 3_000_000_000))
        && (c.newest == 0 ==> before(0x7fff_ffff_ffff_ffff))
  {
  }

  // ---------------------------------------------------------------- the object

  class Files {
    const mode: Mode
    var entries: map<Key, Entry>
    var newestCMTime: int
    var newestPaths: set<Key>
    const startBackup: int
    const ttl: int
    var hits: nat
    var misses: nat

    function State(): Cache
      reads this
    {
      Cache(mode, entries, newestCMTime, newestPaths, startBackup, ttl, hits, misses)
    }

    constructor (mode: Mode, startBackup: int, ttl: int)
      ensures State() == NewCache(mode, startBackup, ttl)
    {
      this.mode, this.startBackup, this.ttl := mode, startBackup, ttl;
      entries, newestCMTime, newestPaths := map[], 0, {};
      hits, misses := 0, 0;
    }

    method RecordNewestTimes(key: Key, ctime: int, mtime: int)
      modifies this`newestCMTime, this`newestPaths
      ensures State() == RecordNewest(old(State()), key, ctime, mtime)
    {
      var times := [ctime, mtime];
      ghost var s := State();
      for i := 0 to 2
        invariant State() == if i == 0 then s else if i == 1 then Newer(s, key, ctime) else RecordNewest(s, key, ctime, mtime)
      {
        var t := times[i];
        if t > newestCMTime {
          newestCMTime, newestPaths := t, {key};
        } else if t == newestCMTime {
          newestPaths := newestPaths + {key};
        }
      }
    }

    method Lookup(key: Key, st: FileInfo) returns (known: bool, chunks: seq<ChunkRef>)
      modifies this
      ensures Found(known, chunks) == LookupResult(old(State()), key, st)
      ensures State() == AfterLookup(old(State()), key, st)
    {
      if mode.disabled || mode.rechunk {
        misses := misses + 1;
        return false, [];
      }
      if key !in entries {
        misses := misses + 1;
        return false, [];
      }
      var e := entries[key];
      if Changed(mode, e, st) {
        misses := misses + 1;
        return true, [];
      }
      entries := entries[key := Confirmed(e, st)];
      RecordNewestTimes(key, st.ctime, st.mtime);
      hits := hits + 1;
      return true, e.chunks;
    }

    method Memorize(key: Key, st: FileInfo, chunks: seq<ChunkRef>)
      modifies this
      ensures State() == AfterMemorize(old(State()), key, st, chunks)
    {
      if mode.disabled {
        return;
      }
      entries := entries[key := Entry(0, st.inode, st.size, st.ctime, st.mtime, chunks)];
      RecordNewestTimes(key, st.ctime, st.mtime);
    }

    /** Whether an entry is written. */
    method Keep(e: Entry) returns (keep: bool)
      ensures keep == Kept(State(), e)
    {
      var discardAfter := MAX_TIME;
      if newestCMTime != 0 {
        discardAfter := newestCMTime;
      }
      if startBackup != 0 && startBackup - TIME_DIFFERS < discardAfter {
        discardAfter := startBackup - TIME_DIFFERS;
      }
      keep := false;
      if e.age == 0 {
        var newest := e.ctime;
        if e.mtime > newest {
          newest := e.mtime;
        }
        if newest < discardAfter {
          keep := true;
        }
      } else if e.age < ttl {
        keep := true;
      }
    }

    /** The entries to write, in whatever order they come up. */
    method Listed() returns (list: seq<Value>)
      requires EntriesFit(entries)
      ensures EntriesIn(list) == Saved(State())
      ensures EncodableAll(list, 2) && |list| <= |entries|
    {
      list := [];
      var todo := entries.Keys;
      ghost var s := State();
      while todo != {}
        invariant todo <= entries.Keys && |list| + |todo| <= |entries|
        invariant ListedExcept(s, todo, list)
        decreases |todo|
      {
        var key :| key in todo;
        var keep := Keep(entries[key]);
        ListedStep(s, todo, list, key);
        todo := todo - {key};
        if keep {
          list := list + [EncodeEntry(key, entries[key])];
        }
      }
      assert Without(Saved(s), {}) == Saved(s);
      EncodableEach(list, 2);
    }

    /** A disabled cache writes nothing. Otherwise what is written reads back as the kept
        entries, one backup older. */
    method Save() returns (file: Option<bytes>)
      requires EntriesFit(entries)
      ensures file.None? <==> mode.disabled
      ensures file.Some? ==> Restored(file.value) == Saved(State())
    {
      if mode.disabled {
        return None;
      }
      var list := Listed();
      FileEncodable(list);
      FileRoundTrip(list);
      return Some(Encode(FileValue(list), 0));
    }

    /** A file that is missing or not ours yields an empty cache. */
    constructor Read(mode: Mode, startBackup: int, ttl: int, file: Option<bytes>)
      ensures State() == Loaded(mode, startBackup, ttl, if file.Some? then Restored(file.value) else map[])
    {
      this.mode, this.startBackup, this.ttl := mode, startBackup, ttl;
      newestCMTime, newestPaths := 0, {};
      hits, misses := 0, 0;
      entries := if mode.disabled || file.None? then map[] else Restored(file.value);
    }
  }

  // ---------------------------------------------------------------- how a backup uses it

  type Inode = (int, int)

  /** What the statistics say of files that were not read, and of the archive's chunks. */
  datatype Tally = Tally(skipped: nat, chunks: nat, originalSize: int)

  function Size(chunks: seq<ChunkRef>): int {
    if chunks == [] then 0 else Size(chunks[..|chunks| - 1]) + chunks[|chunks| - 1].size
  }

  /** The size of a file is that of its chunks. */
  lemma {:induction false} SizeAdds(a: seq<ChunkRef>, b: seq<ChunkRef>, c: ChunkRef)
    ensures Size([]) == 0 && Size([c]) == c.size && Size(a + b) == Size(a) + Size(b)
  {
    assert [c][..0] == [];
    if b == [] {
      assert a + b == a;
    } else {
      assert (a + b)[..|a + b| - 1] == a + b[..|b| - 1];
      SizeAdds(a, b[..|b| - 1], c);
    }
  }

  /** What reading a file once came to: nothing if it failed, else its chunks and whether
      it changed meanwhile. */
  type Reads = Option<(seq<ChunkRef>, bool)>

  const MAX_READS: nat := 10

  /** The first k attempts all found the file changing, and it could be looked at again. */
  ghost predicate Retried(attempt: nat -> Reads, again: nat -> bool, k: nat) {
    forall j: nat :: j < k ==> attempt(j).Some? && attempt(j).value.1 && again(j)
  }

  /** It failed, or the file changed and cannot be looked at again. */
  predicate GivesUp(read: Reads, again: bool) {
    read.None? || (read.value.1 && !again)
  }

  /** A file that changes while it is read is read again, ten times at most. What is
      reported as changed has changed every time. */
  method ReadFile(attempt: nat -> Reads, again: nat -> bool) returns (res: Reads)
    ensures res.Some? && res.value.1 ==> Retried(attempt, again, 9) && res == attempt(9)
    ensures res.Some? && !res.value.1 ==> exists k: nat :: k < 10 && Retried(attempt, again, k) && res == attempt(k)
    ensures res.None? ==> exists k: nat :: k < 10 && Retried(attempt, again, k) && GivesUp(attempt(k), again(k))
  {
    var retry: nat := 0;
    while true
      invariant retry < MAX_READS && Retried(attempt, again, retry)
      decreases MAX_READS - retry
    {
      res := attempt(retry);
      if res.None? || !res.value.1 || retry == MAX_READS - 1 {
        return;
      }
      if !again(retry) {
        return None;
      }
      retry := retry + 1;
    }
  }

  /** The chunks of a regular file with so many links: those of the inode if it has been
      archived already, those the cache knows, or those that reading it yields. A file that
      changed is stored but not memorized. */
  method FileChunks(
      files: Files?, links: map<Inode, seq<ChunkRef>>, inode: Inode, nlink: nat, key: Key, st: FileInfo, read: Reads,
      tally: Tally)
      returns (chunks: Option<seq<ChunkRef>>, status: char, links': map<Inode, seq<ChunkRef>>, tally': Tally)
    modifies files
    ensures nlink > 1 && inode in links ==>
      chunks == Some(links[inode]) && status == 'h' && (files != null ==> files.State() == old(files.State()))
    ensures !(nlink > 1 && inode in links) ==>
      var found := if files == null then Found(false, []) else old(LookupResult(files.State(), key, st));
      if found.chunks != [] then
        chunks == Some(found.chunks) && status == 'U' && files.State() == old(AfterLookup(files.State(), key, st))
      else
        && chunks == (if read.None? then None else Some(read.value.0))
        && status == (if read.Some? && read.value.1 then 'C' else if found.known then 'M' else 'A')
        && (files != null ==>
              var looked := old(AfterLookup(files.State(), key, st));
              files.State() ==
              if read.None? || read.value.1 then looked else AfterMemorize(looked, key, st, read.value.0))
    // The file is not opened exactly if it is unchanged and has any chunks at all.
    ensures status == 'U' <==>
      !(nlink > 1 && inode in links) && files != null && old(Unchanged(files.State(), key, st))
      && old(files.entries[key].chunks) != []
    ensures links' ==
      if nlink > 1 && chunks.Some? then links[inode := chunks.value] else links
    ensures tally' ==
      if status == 'U' then
        Tally(tally.skipped + 1, tally.chunks + |chunks.value|, tally.originalSize + Size(chunks.value))
      else tally
  {
    links', tally' := links, tally;
    if nlink > 1 && inode in links {
      assert links[inode := links[inode]] == links;
      return Some(links[inode]), 'h', links, tally;
    }
    status := 'A';
    if files != null {
      var known, cached := files.Lookup(key, st);
      if known && cached != [] {
        tally' := tally.(skipped := tally.skipped + 1);
        for i := 0 to |cached|
          invariant tally' == Tally(tally.skipped + 1, tally.chunks + i, tally.originalSize + Size(cached[..i]))
        {
          assert cached[..i + 1][..i] == cached[..i];
          tally' := tally'.(chunks := tally'.chunks + 1, originalSize := tally'.originalSize + cached[i].size);
        }
        assert cached[..|cached|] == cached;
        if nlink > 1 {
          links' := links[inode := cached];
        }
        return Some(cached), 'U', links', tally';
      }
      if known {
        status := 'M';
      }
    }
    if read.None? {
      return None, status, links, tally;
    }
    var (got, changed) := read.value;
    if changed {
      status := 'C';
    }
    if nlink > 1 {
      links' := links[inode := got];
    }
    if files != null && !changed {
      files.Memorize(key, st, got);
    }
    chunks := Some(got);
  }

  /** An empty file memorized is known and unchanged at the next lookup, which yet returns
      no chunks: its nil list is what a changed file gives. */
  lemma EmptyFileIsReadAgain(c: Cache, key: Key, st: FileInfo)
    requires !c.mode.disabled && !c.mode.rechunk
    ensures var after := AfterMemorize(c, key, st, []);
      Unchanged(after, key, st) && LookupResult(after, key, st) == Found(true, [])
  {
  }

  // ---------------------------------------------------------------- the file

  /** The names of the fields, as bytes of text. */
  const KEY: bytes := [0x6b]
  const AGE: bytes := [0x61]
  const INODE: bytes := [0x69]
  const SIZE: bytes := [0x73]
  const CTIME: bytes := [0x63]
  const MTIME: bytes := [0x6d]
  const CHUNKS: bytes := [0x68]
  const MAGIC: bytes := [0x6d, 0x61, 0x67, 0x69, 0x63]
  const ENTRIES: bytes := [0x65, 0x6e, 0x74, 0x72, 0x69, 0x65, 0x73]
  /** "BORGE_FILES_CACHE_1" */
  const CACHE_FILE_MAGIC: bytes :=
    [0x42, 0x4f, 0x52, 0x47, 0x45, 0x5f, 0x46, 0x49, 0x4c, 0x45, 0x53, 0x5f, 0x43, 0x41, 0x43, 0x48, 0x45, 0x5f, 0x31]

  predicate IsInt64(n: int) {
    -TWO63 <= n < TWO63
  }

  predicate ChunkFits(c: ChunkRef) {
    |c.id| <= MAX_UINT32 && IsInt64(c.size)
  }

  /** What the 64-bit fields and 32-bit lengths of the file can hold. */
  predicate Fits(key: Key, e: Entry) {
    && |key| <= MAX_UINT32 && IsInt64(e.age + 1) && IsInt64(e.inode) && IsInt64(e.size)
    && IsInt64(e.ctime) && IsInt64(e.mtime) && |e.chunks| <= MAX_UINT32
    && (forall i :: 0 <= i < |e.chunks| ==> ChunkFits(e.chunks[i]))
  }

  ghost predicate EntriesFit(entries: map<Key, Entry>) {
    |entries| <= MAX_UINT32 && forall k :: k in entries ==> Fits(k, entries[k])
  }

  function EncodeChunk(c: ChunkRef): Value {
    Arr([Bin(c.id), Int(c.size)])
  }

  function DecodeChunk(v: Value): Option<ChunkRef> {
    if v.Arr? && |v.elems| == 2 && v.elems[0].Bin? && v.elems[1].Int? && IsInt64(v.elems[1].n) then
      Some(ChunkRef(v.elems[0].data, v.elems[1].n))
    else None
  }

  function DecodeChunks(vs: seq<Value>): Option<seq<ChunkRef>> {
    if vs == [] then Some([])
    else
      match DecodeChunk(vs[0])
      case None => None
      case Some(c) =>
        match DecodeChunks(vs[1..])
        case None => None
        case Some(rest) => Some([c] + rest)
  }

  function EncodeChunks(chunks: seq<ChunkRef>): (vs: seq<Value>)
    ensures |vs| == |chunks|
  {
    seq(|chunks|, i requires 0 <= i < |chunks| => EncodeChunk(chunks[i]))
  }

  /** The fields in the order they are set, names and values in turn. */
  function FieldAt(key: Key, e: Entry, chunks: seq<Value>, i: nat): Value {
    match i
    case 0 => Str(KEY)
    case 1 => Bin(key)
    case 2 => Str(AGE)
    case 3 => Int(e.age + 1)
    case 4 => Str(INODE)
    case 5 => Int(e.inode)
    case 6 => Str(SIZE)
    case 7 => Int(e.size)
    case 8 => Str(CTIME)
    case 9 => Int(e.ctime)
    case 10 => Str(MTIME)
    case 11 => Int(e.mtime)
    case 12 => Str(CHUNKS)
    case _ => Arr(chunks)
  }

  function Fields(key: Key, e: Entry, chunks: seq<Value>): seq<Value> {
    seq(14, i requires 0 <= i < 14 => FieldAt(key, e, chunks, i))
  }

  function EncodeEntry(key: Key, e: Entry): Value {
    Map(Fields(key, e, EncodeChunks(e.chunks)))
  }

  /** The value under a text key: the first one. */
  function Get(m: seq<Value>, name: bytes): Option<Value> {
    if |m| < 2 then None else if m[0] == Str(name) then Some(m[1]) else Get(m[2..], name)
  }

  function IntAt(m: seq<Value>, name: bytes): Option<int> {
    match Get(m, name)
    case Some(Int(n)) => if IsInt64(n) then Some(n) else None
    case _ => None
  }

  function DecodeEntry(v: Value): Option<(Key, Entry)> {
    if !v.Map? then None
    else
      var m := v.entries;
      match Get(m, KEY)
      case Some(Bin(key)) =>
        var age, inode, size, ctime, mtime := IntAt(m, AGE), IntAt(m, INODE), IntAt(m, SIZE), IntAt(m, CTIME), IntAt(m, MTIME);
        if age.None? || inode.None? || size.None? || ctime.None? || mtime.None? then None
        else (
          match Get(m, CHUNKS)
          case Some(Arr(elems)) =>
            (match DecodeChunks(elems)
             case None => None
             case Some(chunks) =>
               Some((key, Entry(age.value, inode.value, size.value, ctime.value, mtime.value, chunks))))
          case _ => None)
      case _ => None
  }

  /** The entries of a list, the last of two with one key; what does not decode is passed over. */
  function EntriesIn(list: seq<Value>): map<Key, Entry> {
    if list == [] then map[]
    else
      var rest := EntriesIn(list[..|list| - 1]);
      match DecodeEntry(list[|list| - 1])
      case None => rest
      case Some((key, e)) => rest[key := e]
  }

  function FileValue(list: seq<Value>): Value {
    Map([Str(MAGIC), Str(CACHE_FILE_MAGIC), Str(ENTRIES), Arr(list)])
  }

  function Restored(file: bytes): map<Key, Entry> {
    match Unmarshal(file)
    case Some(Map(m)) =>
      if Get(m, MAGIC) != Some(Str(CACHE_FILE_MAGIC)) then map[]
      else (
        match Get(m, ENTRIES)
        case Some(Arr(list)) => EntriesIn(list)
        case _ => map[])
    case _ => map[]
  }

  ghost function Without(m: map<Key, Entry>, keys: set<Key>): map<Key, Entry> {
    map k | k in m && k !in keys :: m[k]
  }

  /** The list holds the kept entries but for those under the keys still to do. */
  ghost predicate ListedExcept(c: Cache, todo: set<Key>, list: seq<Value>) {
    EntriesIn(list) == Without(Saved(c), todo) && forall i :: 0 <= i < |list| ==> Encodable(list[i], 2)
  }

  lemma EntriesSnoc(list: seq<Value>, v: Value)
    requires DecodeEntry(v).Some?
    ensures EntriesIn(list + [v]) == EntriesIn(list)[DecodeEntry(v).value.0 := DecodeEntry(v).value.1]
  {
    assert (list + [v])[..|list|] == list;
  }

  lemma {:induction false} GetAt(m: seq<Value>, name: bytes, i: nat)
    requires 2 * i + 1 < |m| && m[2 * i] == Str(name)
    requires forall j :: 0 <= j < i ==> m[2 * j] != Str(name)
    ensures Get(m, name) == Some(m[2 * i + 1])
  {
    if i > 0 {
      assert m[2 * 0] != Str(name);
      forall j | 0 <= j < i - 1
        ensures m[2..][2 * j] != Str(name)
      {
        assert m[2..][2 * j] == m[2 * (j + 1)];
      }
      GetAt(m[2..], name, i - 1);
    }
  }

  lemma {:induction false} EncodableEach(vs: seq<Value>, depth: nat)
    requires forall i :: 0 <= i < |vs| ==> Encodable(vs[i], depth)
    ensures EncodableAll(vs, depth)
  {
    if vs != [] {
      assert Encodable(vs[0], depth);
      EncodableEach(vs[1..], depth);
    }
  }

  lemma {:induction false} ChunksRoundTrip(chunks: seq<ChunkRef>, vs: seq<Value>)
    requires |vs| == |chunks| && forall i :: 0 <= i < |vs| ==> vs[i] == EncodeChunk(chunks[i]) && ChunkFits(chunks[i])
    ensures DecodeChunks(vs) == Some(chunks)
    ensures EncodableAll(vs, 4)
  {
    if vs != [] {
      ChunksRoundTrip(chunks[1..], vs[1..]);
      assert [chunks[0]] + chunks[1..] == chunks;
      EncodableEach([Bin(chunks[0].id), Int(chunks[0].size)], 5);
    }
  }

  ghost predicate HasFields(m: seq<Value>, key: Key, e: Entry, chunks: seq<Value>) {
    && |m| == 14 && m[0] == Str(KEY) && m[1] == Bin(key) && m[2] == Str(AGE) && m[3] == Int(e.age + 1)
    && m[4] == Str(INODE) && m[5] == Int(e.inode) && m[6] == Str(SIZE) && m[7] == Int(e.size)
    && m[8] == Str(CTIME) && m[9] == Int(e.ctime) && m[10] == Str(MTIME) && m[11] == Int(e.mtime)
    && m[12] == Str(CHUNKS) && m[13] == Arr(chunks)
  }

  lemma FieldsAreThere(key: Key, e: Entry, chunks: seq<Value>)
    ensures HasFields(Fields(key, e, chunks), key, e, chunks)
  {
  }

  lemma EntryEncodable(m: seq<Value>, key: Key, e: Entry, chunks: seq<Value>)
    requires Fits(key, e) && HasFields(m, key, e, chunks) && |chunks| == |e.chunks| && EncodableAll(chunks, 4)
    ensures Encodable(Map(m), 2)
  {
    EncodableEach(m, 3);
  }

  /** Where each field of an entry is found. */
  lemma FieldsFound(m: seq<Value>, key: Key, e: Entry, chunks: seq<Value>)
    requires HasFields(m, key, e, chunks)
    ensures Get(m, KEY) == Some(m[1]) && Get(m, AGE) == Some(m[3]) && Get(m, INODE) == Some(m[5])
    ensures Get(m, SIZE) == Some(m[7]) && Get(m, CTIME) == Some(m[9]) && Get(m, MTIME) == Some(m[11])
    ensures Get(m, CHUNKS) == Some(m[13])
  {
    GetAt(m, KEY, 0);
    GetAt(m, AGE, 1);
    GetAt(m, INODE, 2);
    GetAt(m, SIZE, 3);
    GetAt(m, CTIME, 4);
    GetAt(m, MTIME, 5);
    GetAt(m, CHUNKS, 6);
  }

  lemma DecodesBack(m: seq<Value>, key: Key, e: Entry, chunks: seq<Value>)
    requires Fits(key, e) && HasFields(m, key, e, chunks) && DecodeChunks(chunks) == Some(e.chunks)
    ensures DecodeEntry(Map(m)) == Some((key, e.(age := e.age + 1)))
  {
    FieldsFound(m, key, e, chunks);
  }

  /** An entry read back is one backup older and otherwise the same. */
  lemma EntryRoundTrip(key: Key, e: Entry)
    requires Fits(key, e)
    ensures Encodable(EncodeEntry(key, e), 2)
    ensures DecodeEntry(EncodeEntry(key, e)) == Some((key, e.(age := e.age + 1)))
  {
    var chunks := EncodeChunks(e.chunks);
    var m := Fields(key, e, chunks);
    ChunksRoundTrip(e.chunks, chunks);
    FieldsAreThere(key, e, chunks);
    EntryEncodable(m, key, e, chunks);
    DecodesBack(m, key, e, chunks);
  }

  lemma ListedAdd(c: Cache, todo: set<Key>, list: seq<Value>, key: Key, v: Value)
    requires ListedExcept(c, todo, list) && key in todo && key in Saved(c)
    requires Encodable(v, 2) && DecodeEntry(v) == Some((key, Saved(c)[key]))
    ensures ListedExcept(c, todo - {key}, list + [v])
  {
    EntriesSnoc(list, v);
    assert Without(Saved(c), todo - {key}) == Without(Saved(c), todo)[key := Saved(c)[key]];
  }

  lemma ListedSkip(c: Cache, todo: set<Key>, list: seq<Value>, key: Key)
    requires ListedExcept(c, todo, list) && key !in Saved(c)
    ensures ListedExcept(c, todo - {key}, list)
  {
    assert Without(Saved(c), todo - {key}) == Without(Saved(c), todo);
  }

  lemma ListedStep(c: Cache, todo: set<Key>, list: seq<Value>, key: Key)
    requires ListedExcept(c, todo, list) && key in todo && key in c.entries && Fits(key, c.entries[key])
    ensures var e := c.entries[key];
      ListedExcept(c, todo - {key}, if Kept(c, e) then list + [EncodeEntry(key, e)] else list)
  {
    if Kept(c, c.entries[key]) {
      EntryRoundTrip(key, c.entries[key]);
      ListedAdd(c, todo, list, key, EncodeEntry(key, c.entries[key]));
    } else {
      ListedSkip(c, todo, list, key);
    }
  }

  lemma FileEncodable(list: seq<Value>)
    requires |list| <= MAX_UINT32 && EncodableAll(list, 2)
    ensures Encodable(FileValue(list), 0)
  {
    EncodableEach(FileValue(list).entries, 1);
  }

  lemma FileRoundTrip(list: seq<Value>)
    requires Encodable(FileValue(list), 0)
    ensures Restored(Encode(FileValue(list), 0)) == EntriesIn(list)
  {
    var m := FileValue(list).entries;
    UnmarshalRoundTrip(FileValue(list));
    RestoredList(Encode(FileValue(list), 0), m);
  }

  lemma RestoredList(file: bytes, m: seq<Value>)
    requires Unmarshal(file) == Some(Map(m)) && |m| == 4 && m[3].Arr?
    requires m[0] == Str(MAGIC) && m[1] == Str(CACHE_FILE_MAGIC) && m[2] == Str(ENTRIES)
    ensures Restored(file) == EntriesIn(m[3].elems)
  {
    GetAt(m, MAGIC, 0);
    GetAt(m, ENTRIES, 1);
  }

  // ---------------------------------------------------------------- the world around it

  /** A file as the world has it: what it contains, named by the chunks it would be cut
      into, and its stat. */
  datatype File = File(content: seq<ChunkRef>, info: FileInfo)

  /** The walker between two files, or reading one: it holds the stat it took and whether
      the file's content has changed since. */
  datatype Reading = Idle | Opened(key: Key, st: FileInfo, changed: bool)

  /** One backup under way. `memorized` are the paths memorized in it. */
  datatype Backup = Backup(cache: Cache, reading: Reading, memorized: set<Key>)

  datatype World = World(clock: int, files: map<Key, File>, disk: map<Key, Entry>, run: Option<Backup>)

  /** Each backup begins with a mode and a ttl of its own. */
  datatype Event =
    | Tick(now: int)
    | Touch(key: Key, file: File)
    | Remove(key: Key)
    | Begin(mode: Mode, ttl: int)
    | Visit(key: Key)
    | Read(got: seq<ChunkRef>)
    | Skip
    | End
    | Abort

  /** The two times a mode may compare. */
  datatype Clock = Ctime | Mtime

  function Time(info: FileInfo, time: Clock): int {
    if time.Ctime? then info.ctime else info.mtime
  }

  function TimeOf(e: Entry, time: Clock): int {
    if time.Ctime? then e.ctime else e.mtime
  }

  predicate SameContent(w: World, key: Key, file: File) {
    key in w.files && file.content == w.files[key].content
  }

  predicate Same(w: World, key: Key, file: File, time: Clock) {
    SameContent(w, key, file) && Time(file.info, time) == Time(w.files[key].info, time)
  }

  function NoteChange(run: Option<Backup>, key: Key, changed: bool): Option<Backup> {
    match run
    case None => None
    case Some(b) =>
      if changed && b.reading.Opened? && b.reading.key == key then Some(b.(reading := b.reading.(changed := true)))
      else run
  }

  /** What may happen. Whatever changes a file's content or ctime stamps a ctime no earlier
      than the clock less three seconds. A path is not looked up again after it has been
      memorized in the same run. A file read while its content did not change yields it;
      one that changed under the reader may yield anything. */
  predicate Possible(w: World, ev: Event) {
    match ev
    case Tick(now) => w.clock <= now
    case Touch(key, file) => Same(w, key, file, Ctime) || w.clock - TIME_DIFFERS <= file.info.ctime
    case Remove(key) => key in w.files
    case Begin(_, _) => w.run.None? && 0 < w.clock
    case Visit(key) => w.run.Some? && w.run.value.reading.Idle? && key in w.files && key !in w.run.value.memorized
    case Read(got) =>
      && w.run.Some? && w.run.value.reading.Opened?
      && var r := w.run.value.reading;
         !r.changed ==> r.key in w.files && got == w.files[r.key].content
    case Skip => w.run.Some? && w.run.value.reading.Opened?
    case End => w.run.Some? && w.run.value.reading.Idle?
    case Abort => w.run.Some?
  }

  function Happen(w: World, ev: Event): World
    requires Possible(w, ev)
  {
    match ev
    case Tick(now) => w.(clock := now)
    case Touch(key, file) => w.(files := w.files[key := file], run := NoteChange(w.run, key, !SameContent(w, key, file)))
    case Remove(key) => w.(files := w.files - {key}, run := NoteChange(w.run, key, true))
    case Begin(mode, ttl) => w.(run := Some(Backup(Loaded(mode, w.clock, ttl, w.disk), Idle, {})))
    case Visit(key) =>
      var b, st := w.run.value, w.files[key].info;
      w.(run := Some(b.(
        cache := AfterLookup(b.cache, key, st),
        reading := if LookupResult(b.cache, key, st).chunks != [] then Idle else Opened(key, st, false))))
    case Read(got) =>
      var b := w.run.value;
      var key := b.reading.key;
      w.(run := Some(Backup(AfterMemorize(b.cache, key, b.reading.st, got), Idle, b.memorized + {key})))
    case Skip => w.(run := Some(w.run.value.(reading := Idle)))
    case End => w.(disk := if w.run.value.cache.mode.disabled then w.disk else Saved(w.run.value.cache), run := None)
    case Abort => w.(run := None)
  }

  ghost predicate History(w: World, evs: seq<Event>)
    decreases |evs|
  {
    evs == [] || (Possible(w, evs[0]) && History(Happen(w, evs[0]), evs[1..]))
  }

  ghost function After(w: World, evs: seq<Event>): World
    requires History(w, evs)
    decreases |evs|
  {
    if evs == [] then w else After(Happen(w, evs[0]), evs[1..])
  }

  // ---------------------------------------------------------------- never stale

  /** Whatever changes a file's content or this time of it stamps one no earlier than the
      clock less three seconds. For the ctime that is so in every history. */
  predicate Stamps(w: World, ev: Event, time: Clock) {
    ev.Touch? ==> Same(w, ev.key, ev.file, time) || w.clock - TIME_DIFFERS <= Time(ev.file.info, time)
  }

  ghost predicate AllStamp(w: World, evs: seq<Event>, time: Clock)
    requires History(w, evs)
    decreases |evs|
  {
    evs == [] || (Stamps(w, evs[0], time) && AllStamp(Happen(w, evs[0]), evs[1..], time))
  }

  predicate Names(m: Mode, time: Clock) {
    if time.Ctime? then m.ctime else m.mtime
  }

  /** A lookup that finds its file unchanged compared this time. */
  predicate Compares(w: World, ev: Event, time: Clock) {
    ev.Visit? && Possible(w, ev) && Unchanged(w.run.value.cache, ev.key, w.files[ev.key].info) ==>
      Names(w.run.value.cache.mode, time)
  }

  ghost predicate AllCompare(w: World, evs: seq<Event>, time: Clock)
    requires History(w, evs)
    decreases |evs|
  {
    evs == [] || (Compares(w, evs[0], time) && AllCompare(Happen(w, evs[0]), evs[1..], time))
  }

  /** An entry whose time is still the file's has the file's content. */
  ghost predicate Agrees(w: World, key: Key, e: Entry, time: Clock) {
    key in w.files && Time(w.files[key].info, time) == TimeOf(e, time) ==> w.files[key].content == e.chunks
  }

  /** Such an entry stays right: whatever happens to the file later stamps a later time. */
  ghost predicate Safe(w: World, key: Key, e: Entry, time: Clock) {
    TimeOf(e, time) < w.clock - TIME_DIFFERS && Agrees(w, key, e, time)
  }

  /** An entry during a run. One from an earlier run is safe; one memorized in this run
      need be right only if it is old enough to survive the save. */
  ghost predicate Sound(w: World, b: Backup, key: Key, e: Entry, time: Clock) {
    && 0 <= e.age
    && (if key in b.memorized then e.age == 0 && (TimeOf(e, time) < b.cache.start - TIME_DIFFERS ==> Agrees(w, key, e, time))
        else Safe(w, key, e, time))
  }

  /** A file being read has the time its stat had, or one no earlier than the start of the
      run less three seconds; and that if its content has changed. */
  ghost predicate Watched(w: World, b: Backup, r: Reading, time: Clock) {
    r.Opened? ==>
      && (r.changed && r.key in w.files ==> b.cache.start - TIME_DIFFERS <= Time(w.files[r.key].info, time))
      && (!r.changed ==>
            && r.key in w.files
            && (Time(w.files[r.key].info, time) == Time(r.st, time)
                || b.cache.start - TIME_DIFFERS <= Time(w.files[r.key].info, time)))
  }

  ghost predicate RunInv(w: World, b: Backup, time: Clock) {
    && 0 < b.cache.start <= w.clock
    && (b.cache.mode.disabled ==> b.cache.entries == map[])
    && (forall k :: k in b.cache.entries ==> Sound(w, b, k, b.cache.entries[k], time))
    && Watched(w, b, b.reading, time)
  }

  ghost predicate Inv(w: World, time: Clock) {
    && (forall k :: k in w.disk ==> 0 < w.disk[k].age && Safe(w, k, w.disk[k], time))
    && (w.run.Some? ==> RunInv(w, w.run.value, time))
  }

  /** The world moves on without the cache: the clock, or one file. */
  lemma WorldMoves(w: World, ev: Event, time: Clock)
    requires Inv(w, time) && Possible(w, ev) && (ev.Tick? || ev.Touch? || ev.Remove?) && Stamps(w, ev, time)
    ensures Inv(Happen(w, ev), time)
  {
    var w' := Happen(w, ev);
    forall k, e: Entry | TimeOf(e, time) < w.clock - TIME_DIFFERS && Agrees(w, k, e, time)
      ensures Agrees(w', k, e, time)
    {
    }
    if w.run.Some? {
      var b, b' := w.run.value, w'.run.value;
      forall k | k in b'.cache.entries
        ensures Sound(w', b', k, b'.cache.entries[k], time)
      {
        assert Sound(w, b, k, b.cache.entries[k], time);
      }
    }
  }

  lemma VisitKeeps(w: World, key: Key, time: Clock)
    requires Inv(w, time) && Possible(w, Visit(key)) && Compares(w, Visit(key), time)
    ensures Inv(Happen(w, Visit(key)), time)
  {
    var w' := Happen(w, Visit(key));
    var b, b' := w.run.value, w'.run.value;
    forall k | k in b'.cache.entries
      ensures Sound(w', b', k, b'.cache.entries[k], time)
    {
      assert Sound(w, b, k, b.cache.entries[k], time);
    }
  }

  lemma ReadKeeps(w: World, got: seq<ChunkRef>, time: Clock)
    requires Inv(w, time) && Possible(w, Read(got))
    ensures Inv(Happen(w, Read(got)), time)
  {
    var w' := Happen(w, Read(got));
    var b, b' := w.run.value, w'.run.value;
    forall k | k in b'.cache.entries
      ensures Sound(w', b', k, b'.cache.entries[k], time)
    {
      if k != b.reading.key {
        assert Sound(w, b, k, b.cache.entries[k], time);
      }
    }
  }

  lemma EndKeeps(w: World, time: Clock)
    requires Inv(w, time) && Possible(w, End)
    ensures Inv(Happen(w, End), time)
  {
    var b := w.run.value;
    forall k | k in Saved(b.cache)
      ensures 0 < Saved(b.cache)[k].age && Safe(w, k, Saved(b.cache)[k], time)
    {
      assert Sound(w, b, k, b.cache.entries[k], time);
    }
  }

  lemma EventKeeps(w: World, ev: Event, time: Clock)
    requires Inv(w, time) && Possible(w, ev) && Stamps(w, ev, time) && Compares(w, ev, time)
    ensures Inv(Happen(w, ev), time)
  {
    match ev {
      case Tick(_) => WorldMoves(w, ev, time);
      case Touch(_, _) => WorldMoves(w, ev, time);
      case Remove(_) => WorldMoves(w, ev, time);
      case Begin(_, _) =>
      case Visit(key) => VisitKeeps(w, key, time);
      case Read(got) => ReadKeeps(w, got, time);
      case Skip =>
      case End => EndKeeps(w, time);
      case Abort =>
    }
  }

  lemma {:induction false} HistoryKeeps(w: World, evs: seq<Event>, time: Clock)
    requires Inv(w, time) && History(w, evs) && AllStamp(w, evs, time) && AllCompare(w, evs, time)
    ensures Inv(After(w, evs), time)
    decreases |evs|
  {
    if evs != [] {
      EventKeeps(w, evs[0], time);
      HistoryKeeps(Happen(w, evs[0]), evs[1..], time);
    }
  }

  /** Over any history of backups, completed or aborted and each in a mode of its own, and
      of changes to files, starting without a cache: if a change of content always stamps
      the time, and whenever a file was found unchanged that time was compared, then a lookup
      that returns chunks and compares the time returns those of the file's content then; and
      it is just then that the file is not read. */
  lemma NeverStaleBy(clock: int, files: map<Key, File>, evs: seq<Event>, key: Key, time: Clock)
    requires History(World(clock, files, map[], None), evs)
    requires AllStamp(World(clock, files, map[], None), evs, time) && AllCompare(World(clock, files, map[], None), evs, time)
    requires var w := After(World(clock, files, map[], None), evs); Possible(w, Visit(key)) && Compares(w, Visit(key), time)
    ensures var w := After(World(clock, files, map[], None), evs);
      var found := LookupResult(w.run.value.cache, key, w.files[key].info);
      && (found.chunks != [] ==> found.chunks == w.files[key].content)
      && (Happen(w, Visit(key)).run.value.reading.Idle? <==> found.chunks != [])
  {
    HistoryKeeps(World(clock, files, map[], None), evs, time);
    var w := After(World(clock, files, map[], None), evs);
    var c := w.run.value.cache;
    if key in c.entries {
      assert Sound(w, w.run.value, key, c.entries[key], time);
    }
  }

  lemma {:induction false} CtimesStamp(w: World, evs: seq<Event>)
    requires History(w, evs)
    ensures AllStamp(w, evs, Ctime)
    decreases |evs|
  {
    if evs != [] {
      CtimesStamp(Happen(w, evs[0]), evs[1..]);
    }
  }

  /** No program can keep a change from stamping the ctime, so comparing it is enough. */
  lemma NeverStale(clock: int, files: map<Key, File>, evs: seq<Event>, key: Key)
    requires History(World(clock, files, map[], None), evs) && AllCompare(World(clock, files, map[], None), evs, Ctime)
    requires var w := After(World(clock, files, map[], None), evs); Possible(w, Visit(key)) && Compares(w, Visit(key), Ctime)
    ensures var w := After(World(clock, files, map[], None), evs);
      var found := LookupResult(w.run.value.cache, key, w.files[key].info);
      && (found.chunks != [] ==> found.chunks == w.files[key].content)
      && (Happen(w, Visit(key)).run.value.reading.Idle? <==> found.chunks != [])
  {
    CtimesStamp(World(clock, files, map[], None), evs);
    NeverStaleBy(clock, files, evs, key, Ctime);
  }

  // ---------------------------------------------------------------- ageing

  /** A path's entry is confirmed: found unchanged, or memorized anew. */
  predicate Confirms(w: World, ev: Event, key: Key)
    requires Possible(w, ev)
  {
    match ev
    case Visit(k) => k == key && Unchanged(w.run.value.cache, key, w.files[key].info)
    case Read(_) => w.run.value.reading.key == key && !w.run.value.cache.mode.disabled
    case _ => false
  }

  /** No event confirms the path, and every run has this ttl. */
  ghost predicate Unconfirmed(w: World, evs: seq<Event>, key: Key, ttl: int)
    requires History(w, evs)
    decreases |evs|
  {
    evs == [] ||
    (!Confirms(w, evs[0], key) && (evs[0].Begin? ==> evs[0].ttl == ttl) && Unconfirmed(Happen(w, evs[0]), evs[1..], key, ttl))
  }

  /** How many runs with the cache enabled have ended. */
  ghost function Ends(w: World, evs: seq<Event>): nat
    requires History(w, evs)
    decreases |evs|
  {
    if evs == [] then 0
    else (if evs[0].End? && !w.run.value.cache.mode.disabled then 1 else 0) + Ends(Happen(w, evs[0]), evs[1..])
  }

  function EntryAt(m: map<Key, Entry>, key: Key): Option<Entry> {
    if key in m then Some(m[key]) else None
  }

  /** An entry n runs later. */
  function Aged(e: Option<Entry>, n: nat, ttl: int): Option<Entry> {
    if e.None? || n == 0 then e
    else if e.value.age + n <= ttl then Some(e.value.(age := e.value.age + n))
    else None
  }

  /** The run under way holds the entry as it is on disk. */
  ghost predicate Carried(w: World, key: Key, ttl: int) {
    && (key in w.disk ==> 0 < w.disk[key].age)
    && (w.run.Some? ==>
          var c := w.run.value.cache;
          c.mode.disabled || (c.ttl == ttl && EntryAt(c.entries, key) == EntryAt(w.disk, key)))
  }

  lemma StepAges(w: World, ev: Event, key: Key, ttl: int)
    requires Possible(w, ev) && Carried(w, key, ttl) && !Confirms(w, ev, key) && (ev.Begin? ==> ev.ttl == ttl)
    ensures Carried(Happen(w, ev), key, ttl)
    ensures EntryAt(Happen(w, ev).disk, key) ==
      Aged(EntryAt(w.disk, key), if ev.End? && !w.run.value.cache.mode.disabled then 1 else 0, ttl)
  {
  }

  /** Over any history in which a path is not confirmed, whatever else is looked up, read,
      changed or aborted: its entry ages by one with every run that ends, and is gone once
      it is older than the ttl. */
  lemma {:induction false} AgesOut(w: World, evs: seq<Event>, key: Key, ttl: int)
    requires History(w, evs) && Unconfirmed(w, evs, key, ttl) && Carried(w, key, ttl)
    ensures EntryAt(After(w, evs).disk, key) == Aged(EntryAt(w.disk, key), Ends(w, evs), ttl)
    decreases |evs|
  {
    if evs != [] {
      StepAges(w, evs[0], key, ttl);
      AgesOut(Happen(w, evs[0]), evs[1..], key, ttl);
    }
  }

  /** So what a run confirmed and saved outlives fewer than ttl further runs. */
  lemma GoneAfterTtl(w: World, evs: seq<Event>, key: Key, ttl: int)
    requires w.run.None? && key in w.disk && w.disk[key].age == 1
    requires History(w, evs) && Unconfirmed(w, evs, key, ttl) && 0 < Ends(w, evs)
    ensures key in After(w, evs).disk <==> Ends(w, evs) < ttl
  {
    AgesOut(w, evs, key, ttl);
  }
}

/** When the files cache can take old chunks for a file's content: which modes the backups
    would have to run in, one after the other, and a history for every such list of modes. */
module Staleness {
  import opened Bytes
  import opened FilesCache

  // ---------------------------------------------------------------- the question

  function ModeOf(ev: Event): seq<Mode> {
    if ev.Begin? then [ev.mode] else []
  }

  /** The modes in which the backups of a history are begun. */
  function Modes(evs: seq<Event>): seq<Mode> {
    if evs == [] then [] else ModeOf(evs[0]) + Modes(evs[1..])
  }

  /** A lookup now returns chunks, and not those of the file. */
  predicate StaleAt(w: World, key: Key) {
    && Possible(w, Visit(key))
    && var found := LookupResult(w.run.value.cache, key, w.files[key].info);
      found.chunks != [] && found.chunks != w.files[key].content
  }

  function Empty(clock: int, files: map<Key, File>): World {
    World(clock, files, map[], None)
  }

  /** Some history whose backups run in these modes, starting without a cache, ends in the
      last of them before a lookup that is stale. */
  ghost predicate CanGoStale(ms: seq<Mode>) {
    exists clock, files, evs, key :: History(Empty(clock, files), evs) && Modes(evs) == ms && StaleAt(After(Empty(clock, files), evs), key)
  }

  /** Lookups may find files unchanged. */
  predicate Trusts(m: Mode) {
    !m.disabled && !m.rechunk
  }

  /** A backup that memorizes files, and a later one that trusts entries without comparing
      the ctime; it may be the last one. */
  ghost predicate Misleads(ms: seq<Mode>, k: nat, i: nat) {
    k < i < |ms| && !ms[k].disabled && Trusts(ms[i]) && !ms[i].ctime
  }

  ghost predicate AnyMisleads(ms: seq<Mode>) {
    exists k: nat, i: nat :: Misleads(ms, k, i)
  }

  // ---------------------------------------------------------------- never, for other modes

  predicate AllDisabled(ms: seq<Mode>) {
    forall k :: 0 <= k < |ms| ==> ms[k].disabled
  }

  /** The backups before the one under way. */
  function Earlier(w: World, ms: seq<Mode>): seq<Mode> {
    if w.run.Some? && ms != [] then ms[..|ms| - 1] else ms
  }

  /** With no backup before that memorized anything, there is nothing on disk, and a run
      knows only what it has memorized itself. */
  ghost predicate Bare(w: World, ms: seq<Mode>) {
    && (w.run.Some? ==> ms != [] && w.run.value.cache.mode == ms[|ms| - 1])
    && (AllDisabled(Earlier(w, ms)) ==>
          && w.disk == map[]
          && (w.run.Some? ==> w.run.value.cache.entries.Keys <= w.run.value.memorized))
    && (w.run.Some? && w.run.value.cache.mode.disabled ==> w.run.value.cache.entries == map[])
  }

  lemma BareEnds(w: World, ms: seq<Mode>, ev: Event)
    requires Possible(w, ev) && Bare(w, ms) && (ev.End? || ev.Abort?)
    ensures Bare(Happen(w, ev), ms)
  {
    var last := |ms| - 1;
    if AllDisabled(ms) {
      assert ms[last].disabled;
      assert AllDisabled(ms[..last]);
    }
  }

  lemma BareBegins(w: World, ms: seq<Mode>, ev: Event)
    requires Possible(w, ev) && Bare(w, ms) && ev.Begin?
    ensures Bare(Happen(w, ev), ms + [ev.mode])
  {
    assert (ms + [ev.mode])[..|ms|] == ms;
  }

  lemma BareStep(w: World, ms: seq<Mode>, ev: Event)
    requires Possible(w, ev) && Bare(w, ms)
    ensures Bare(Happen(w, ev), ms + ModeOf(ev))
  {
    if ev.Begin? {
      BareBegins(w, ms, ev);
    } else {
      assert ms + [] == ms;
      if ev.End? || ev.Abort? {
        BareEnds(w, ms, ev);
      }
    }
  }

  lemma ComparesCtime(w: World, ms: seq<Mode>, all: seq<Mode>, ev: Event)
    requires Possible(w, ev) && Bare(w, ms) && ms <= all && !AnyMisleads(all)
    ensures Compares(w, ev, Ctime)
  {
    if ev.Visit? && Unchanged(w.run.value.cache, ev.key, w.files[ev.key].info) && !w.run.value.cache.mode.ctime {
      var i := |ms| - 1;
      assert Trusts(all[i]) && !all[i].ctime;
      forall k | 0 <= k < i
        ensures ms[..i][k].disabled
      {
        assert !Misleads(all, k, i);
      }
      assert AllDisabled(ms[..i]);
    }
  }

  /** Every lookup that finds its file unchanged has compared the ctime. */
  lemma {:induction false} AllCompareCtime(w: World, ms: seq<Mode>, evs: seq<Event>, all: seq<Mode>)
    requires History(w, evs) && Bare(w, ms) && all == ms + Modes(evs) && !AnyMisleads(all)
    ensures AllCompare(w, evs, Ctime) && Bare(After(w, evs), all)
    decreases |evs|
  {
    if evs == [] {
      assert all == ms;
    } else {
      var ev := evs[0];
      ComparesCtime(w, ms, all, ev);
      BareStep(w, ms, ev);
      Regroup(ms, ModeOf(ev), Modes(evs[1..]));
      AllCompareCtime(Happen(w, ev), ms + ModeOf(ev), evs[1..], all);
    }
  }

  lemma NotStale(clock: int, files: map<Key, File>, evs: seq<Event>, key: Key)
    requires History(Empty(clock, files), evs) && !AnyMisleads(Modes(evs))
    ensures !StaleAt(After(Empty(clock, files), evs), key)
  {
    var w, end := Empty(clock, files), After(Empty(clock, files), evs);
    assert [] + Modes(evs) == Modes(evs);
    AllCompareCtime(w, [], evs, Modes(evs));
    if Possible(end, Visit(key)) {
      ComparesCtime(end, Modes(evs), Modes(evs), Visit(key));
      NeverStale(clock, files, evs, key);
    }
  }

  /** A run whose mode trusts no entry returns no chunks. */
  lemma LastTrusts(clock: int, files: map<Key, File>, evs: seq<Event>, key: Key)
    requires History(Empty(clock, files), evs) && StaleAt(After(Empty(clock, files), evs), key)
    ensures Modes(evs) != [] && Trusts(Modes(evs)[|Modes(evs)| - 1])
  {
    assert [] + Modes(evs) == Modes(evs);
    RunsInLast(Empty(clock, files), [], evs);
  }

  lemma {:induction false} RunsInLast(w: World, ms: seq<Mode>, evs: seq<Event>)
    requires History(w, evs) && Bare(w, ms)
    ensures Bare(After(w, evs), ms + Modes(evs))
    decreases |evs|
  {
    if evs == [] {
      assert ms + [] == ms;
    } else {
      BareStep(w, ms, evs[0]);
      RunsInLast(Happen(w, evs[0]), ms + ModeOf(evs[0]), evs[1..]);
      Regroup(ms, ModeOf(evs[0]), Modes(evs[1..]));
    }
  }

  // ---------------------------------------------------------------- a history that leads there

  /** The history takes one world to the other, and begins its backups in these modes. */
  ghost predicate Leads(w: World, evs: seq<Event>, ms: seq<Mode>, w': World) {
    History(w, evs) && After(w, evs) == w' && Modes(evs) == ms
  }

  lemma {:induction false} LeadsOn(w: World, a: seq<Event>, m: seq<Mode>, w1: World, b: seq<Event>, n: seq<Mode>, w2: World)
    requires Leads(w, a, m, w1) && Leads(w1, b, n, w2)
    ensures Leads(w, a + b, m + n, w2)
    decreases |a|
  {
    if a == [] {
      assert a + b == b && m + n == n;
    } else {
      assert (a + b)[0] == a[0] && (a + b)[1..] == a[1..] + b;
      LeadsOn(Happen(w, a[0]), a[1..], Modes(a[1..]), w1, b, n, w2);
      Regroup(ModeOf(a[0]), Modes(a[1..]), n);
    }
  }

  lemma One(w: World, ev: Event, w': World)
    requires Possible(w, ev) && Happen(w, ev) == w'
    ensures Leads(w, [ev], ModeOf(ev), w')
  {
    assert Modes([ev]) == ModeOf(ev) + Modes([]);
  }

  lemma Two(w: World, a: Event, b: Event, w': World)
    requires Possible(w, a) && Possible(Happen(w, a), b) && Happen(Happen(w, a), b) == w'
    ensures Leads(w, [a, b], ModeOf(a) + ModeOf(b), w')
  {
    One(w, a, Happen(w, a));
    One(Happen(w, a), b, w');
    LeadsOn(w, [a], ModeOf(a), Happen(w, a), [b], ModeOf(b), w');
    assert [a] + [b] == [a, b];
  }

  /** Backups that are aborted before they look at anything. */
  function Aborted(ms: seq<Mode>): seq<Event> {
    if ms == [] then [] else [Begin(ms[0], 2), Abort] + Aborted(ms[1..])
  }

  lemma {:induction false} AbortedLeads(w: World, ms: seq<Mode>)
    requires 0 < w.clock && w.run.None?
    ensures Leads(w, Aborted(ms), ms, w)
    decreases |ms|
  {
    if ms != [] {
      Two(w, Begin(ms[0], 2), Abort, w);
      AbortedLeads(w, ms[1..]);
      LeadsOn(w, [Begin(ms[0], 2), Abort], [ms[0]], w, Aborted(ms[1..]), ms[1..], w);
      assert [ms[0]] + ms[1..] == ms;
    }
  }

  // ---------------------------------------------------------------- the files

  const SECOND: int := 1_000_000_000
  const ONE: Key := [1]
  const OTHER: Key := [2]

  function OldFile(): File {
    File([ChunkRef([10], 7)], FileInfo(7, 1, 10 * SECOND, 10 * SECOND))
  }

  /** Rewritten at 100 seconds, in place, with its size and its mtime put back. */
  function NewFile(): File {
    File([ChunkRef([20], 7)], FileInfo(7, 1, 100 * SECOND, 10 * SECOND))
  }

  /** The other file is there because a run does not trust the newest file it has seen. */
  function OtherFile(at: int): File {
    File([ChunkRef([30], 7)], FileInfo(7, 2, at * SECOND, at * SECOND))
  }

  function EntryOf(f: File, age: int): Entry {
    Entry(age, f.info.inode, f.info.size, f.info.ctime, f.info.mtime, f.content)
  }

  /** What a backup that does not compare the ctime leaves: old chunks, the new ctime. */
  function OldUnderNew(): Entry {
    EntryOf(OldFile(), 1).(ctime := NewFile().info.ctime)
  }

  function Before(): World {
    Empty(100 * SECOND, map[ONE := OldFile(), OTHER := OtherFile(20)])
  }

  function Rewritten(e: Entry): World {
    World(300 * SECOND, map[ONE := NewFile(), OTHER := OtherFile(200)], map[ONE := e], None)
  }

  /** A file that is not in the cache is visited, and read while nothing changes. */
  function Recorded(w: World, key: Key): World
    requires w.run.Some? && key in w.files
  {
    var b := w.run.value;
    var c := b.cache.(misses := b.cache.misses + 1);
    w.(run := Some(Backup(AfterMemorize(c, key, w.files[key].info, w.files[key].content), Idle, b.memorized + {key})))
  }

  function Running(w: World, mode: Mode): World
    requires 0 < w.clock && w.run.None?
  {
    Happen(w, Begin(mode, 2))
  }

  lemma VisitAndRead(w: World, key: Key)
    requires Possible(w, Visit(key)) && !Unchanged(w.run.value.cache, key, w.files[key].info)
    ensures Leads(w, [Visit(key), Read(w.files[key].content)], [], Recorded(w, key))
  {
    Two(w, Visit(key), Read(w.files[key].content), Recorded(w, key));
  }

  // ---------------------------------------------------------------- the first backup

  function FirstBackup(m: Mode): seq<Event> {
    [Begin(m, 2)] + ([Visit(ONE), Read(OldFile().content)] + ([Visit(OTHER), Read(OtherFile(20).content)] + [End]))
  }

  lemma FirstRuns(m: Mode, w1: World, w2: World, w3: World)
    requires !m.disabled && w1 == Running(Before(), m) && w2 == Recorded(w1, ONE) && w3 == Recorded(w2, OTHER)
    ensures !Unchanged(w1.run.value.cache, ONE, OldFile().info) && !Unchanged(w2.run.value.cache, OTHER, OtherFile(20).info)
    ensures Possible(w1, Visit(ONE)) && Possible(w2, Visit(OTHER)) && Possible(w3, End)
    ensures w3.run.value.cache.entries == map[ONE := EntryOf(OldFile(), 0), OTHER := EntryOf(OtherFile(20), 0)]
    ensures DiscardAfter(w3.run.value.cache) == 20 * SECOND
    ensures Happen(w3, End) == Before().(disk := map[ONE := EntryOf(OldFile(), 1)])
  {
  }

  lemma FirstLeads(m: Mode)
    requires !m.disabled
    ensures Leads(Before(), FirstBackup(m), [m], Before().(disk := map[ONE := EntryOf(OldFile(), 1)]))
  {
    var w1 := Running(Before(), m);
    var w2 := Recorded(w1, ONE);
    var w3, w4 := Recorded(w2, OTHER), Before().(disk := map[ONE := EntryOf(OldFile(), 1)]);
    FirstRuns(m, w1, w2, w3);
    One(Before(), Begin(m, 2), w1);
    VisitAndRead(w1, ONE);
    VisitAndRead(w2, OTHER);
    One(w3, End, w4);
    Assemble(
      Before(), [Begin(m, 2)], w1, [Visit(ONE), Read(OldFile().content)], w2, [Visit(OTHER), Read(OtherFile(20).content)], w3,
      [End], w4, m);
  }

  lemma Assemble(
      w: World, a: seq<Event>, w1: World, b: seq<Event>, w2: World, c: seq<Event>, w3: World, d: seq<Event>, w4: World, m: Mode)
    requires Leads(w, a, [m], w1) && Leads(w1, b, [], w2) && Leads(w2, c, [], w3) && Leads(w3, d, [], w4)
    ensures Leads(w, a + (b + (c + d)), [m], w4)
  {
    LeadsOn(w2, c, [], w3, d, [], w4);
    LeadsOn(w1, b, [], w2, c + d, [] + [], w4);
    LeadsOn(w, a, [m], w1, b + (c + d), [] + ([] + []), w4);
    assert [m] + ([] + ([] + [])) == [m];
  }

  function Rewrite(): seq<Event> {
    [Touch(ONE, NewFile()), Tick(200 * SECOND)] + [Touch(OTHER, OtherFile(200)), Tick(300 * SECOND)]
  }

  lemma RewriteLeads(w: World)
    requires w == Before().(disk := map[ONE := EntryOf(OldFile(), 1)])
    ensures Leads(w, Rewrite(), [], Rewritten(EntryOf(OldFile(), 1)))
  {
    var w' := Happen(Happen(w, Touch(ONE, NewFile())), Tick(200 * SECOND));
    Two(w, Touch(ONE, NewFile()), Tick(200 * SECOND), w');
    Two(w', Touch(OTHER, OtherFile(200)), Tick(300 * SECOND), Rewritten(EntryOf(OldFile(), 1)));
    LeadsOn(w, [Touch(ONE, NewFile()), Tick(200 * SECOND)], [], w',
            [Touch(OTHER, OtherFile(200)), Tick(300 * SECOND)], [], Rewritten(EntryOf(OldFile(), 1)));
  }

  // ---------------------------------------------------------------- the second backup

  /** It does not compare the ctime: it takes the file for unchanged and learns the new one. */
  function SecondBackup(m: Mode): seq<Event> {
    [Begin(m, 2)] + ([Visit(ONE)] + ([Visit(OTHER), Read(OtherFile(200).content)] + [End]))
  }

  lemma SecondRuns(m: Mode, w1: World, w2: World, w3: World)
    requires Trusts(m) && !m.ctime && w1 == Running(Rewritten(EntryOf(OldFile(), 1)), m)
    requires w2 == Happen(w1, Visit(ONE)) && w2.run.Some? && w3 == Recorded(w2, OTHER)
    ensures w2.run.value.reading.Idle? && w2.run.value.cache.entries == map[ONE := OldUnderNew().(age := 0)]
    ensures Possible(w2, Visit(OTHER)) && !Unchanged(w2.run.value.cache, OTHER, OtherFile(200).info)
    ensures DiscardAfter(w3.run.value.cache) == 200 * SECOND
    ensures Possible(w3, End) && Happen(w3, End) == Rewritten(OldUnderNew())
  {
  }

  lemma SecondLeads(m: Mode)
    requires Trusts(m) && !m.ctime
    ensures Leads(Rewritten(EntryOf(OldFile(), 1)), SecondBackup(m), [m], Rewritten(OldUnderNew()))
  {
    var w := Rewritten(EntryOf(OldFile(), 1));
    var w1 := Running(w, m);
    var w2 := Happen(w1, Visit(ONE));
    var w3 := Recorded(w2, OTHER);
    SecondRuns(m, w1, w2, w3);
    One(w, Begin(m, 2), w1);
    One(w1, Visit(ONE), w2);
    VisitAndRead(w2, OTHER);
    One(w3, End, Rewritten(OldUnderNew()));
    Assemble(
      w, [Begin(m, 2)], w1, [Visit(ONE)], w2, [Visit(OTHER), Read(OtherFile(200).content)], w3, [End], Rewritten(OldUnderNew()), m);
  }

  // ---------------------------------------------------------------- exactly when

  /** The last backup, begun where the entry on disk is taken for the new file's. */
  lemma StaleInLast(e: Entry, m: Mode)
    requires Trusts(m) && (e == OldUnderNew() || (e == EntryOf(OldFile(), 1) && !m.ctime))
    ensures Leads(Rewritten(e), [Begin(m, 2)], [m], Running(Rewritten(e), m)) && StaleAt(Running(Rewritten(e), m), ONE)
  {
    One(Rewritten(e), Begin(m, 2), Running(Rewritten(e), m));
  }

  /** A backup among others that come to nothing. */
  lemma Among(w: World, before: seq<Mode>, evs: seq<Event>, m: Mode, after: seq<Mode>, w': World)
    requires 0 < w.clock && w.run.None? && 0 < w'.clock && w'.run.None? && Leads(w, evs, [m], w')
    ensures Leads(w, Aborted(before) + (evs + Aborted(after)), before + ([m] + after), w')
  {
    AbortedLeads(w, before);
    AbortedLeads(w', after);
    LeadsOn(w, evs, [m], w', Aborted(after), after, w');
    LeadsOn(w, Aborted(before), before, w, evs + Aborted(after), [m] + after, w');
  }

  /** The first backup, the rewrite, and backups that come to nothing. */
  lemma {:induction false} OldOnDisk(before: seq<Mode>, m: Mode, after: seq<Mode>) returns (evs: seq<Event>)
    requires !m.disabled
    ensures Leads(Before(), evs, before + ([m] + after), Rewritten(EntryOf(OldFile(), 1)))
  {
    var w, w' := Before().(disk := map[ONE := EntryOf(OldFile(), 1)]), Rewritten(EntryOf(OldFile(), 1));
    FirstLeads(m);
    RewriteLeads(w);
    LeadsOn(Before(), FirstBackup(m), [m], w, Rewrite(), [], w');
    assert [m] + [] == [m];
    Among(Before(), before, FirstBackup(m) + Rewrite(), m, after, w');
    evs := Aborted(before) + (FirstBackup(m) + Rewrite() + Aborted(after));
  }

  lemma IsStale(evs: seq<Event>, ms: seq<Mode>, w: World)
    requires Leads(Before(), evs, ms, w) && StaleAt(w, ONE)
    ensures CanGoStale(ms)
  {
    assert History(Empty(Before().clock, Before().files), evs);
  }

  /** And the second one behind it. */
  lemma OldUnderNewOnDisk(first: seq<Event>, before: seq<Mode>, m: Mode, after: seq<Mode>) returns (evs: seq<Event>)
    requires Leads(Before(), first, before, Rewritten(EntryOf(OldFile(), 1))) && Trusts(m) && !m.ctime
    ensures Leads(Before(), evs, before + ([m] + after), Rewritten(OldUnderNew()))
  {
    var w, w' := Rewritten(EntryOf(OldFile(), 1)), Rewritten(OldUnderNew());
    SecondLeads(m);
    Among(w, [], SecondBackup(m), m, after, w');
    assert [] + ([m] + after) == [m] + after;
    var more := Aborted([]) + (SecondBackup(m) + Aborted(after));
    LeadsOn(Before(), first, before, w, more, [m] + after, w');
    evs := first + more;
  }

  lemma LastIsStale(evs: seq<Event>, before: seq<Mode>, e: Entry, m: Mode)
    requires Leads(Before(), evs, before, Rewritten(e))
    requires Trusts(m) && (e == OldUnderNew() || (e == EntryOf(OldFile(), 1) && !m.ctime))
    ensures CanGoStale(before + [m])
  {
    StaleInLast(e, m);
    LeadsOn(Before(), evs, before, Rewritten(e), [Begin(m, 2)], [m], Running(Rewritten(e), m));
    IsStale(evs + [Begin(m, 2)], before + [m], Running(Rewritten(e), m));
  }

  lemma GoesStale(ms: seq<Mode>, k: nat, i: nat)
    requires ms != [] && Misleads(ms, k, i) && Trusts(ms[|ms| - 1])
    ensures CanGoStale(ms)
  {
    var last := |ms| - 1;
    var evs := OldOnDisk(ms[..k], ms[k], ms[k + 1..i]);
    assert ms[..k] + ([ms[k]] + ms[k + 1..i]) == ms[..i];
    if i < last {
      evs := OldUnderNewOnDisk(evs, ms[..i], ms[i], ms[i + 1..last]);
      assert ms[..i] + ([ms[i]] + ms[i + 1..last]) == ms[..last];
      LastIsStale(evs, ms[..last], OldUnderNew(), ms[last]);
    } else {
      LastIsStale(evs, ms[..last], EntryOf(OldFile(), 1), ms[last]);
    }
    assert ms[..last] + [ms[last]] == ms;
  }

  /** For every list of modes backups may run in, one after the other: some history makes a
      lookup in the last of them return chunks other than the file's, exactly when lookups
      in that mode can return any, and a backup that memorizes files is followed by one that
      trusts entries without comparing the ctime, be it the last one or one before. */
  lemma StaleIff(ms: seq<Mode>)
    ensures CanGoStale(ms) <==> ms != [] && Trusts(ms[|ms| - 1]) && AnyMisleads(ms)
  {
    if CanGoStale(ms) {
      var clock, files, evs, key :|
        History(Empty(clock, files), evs) && Modes(evs) == ms && StaleAt(After(Empty(clock, files), evs), key);
      LastTrusts(clock, files, evs, key);
      if !AnyMisleads(ms) {
        NotStale(clock, files, evs, key);
      }
    } else if ms != [] && Trusts(ms[|ms| - 1]) && AnyMisleads(ms) {
      var k: nat, i: nat :| Misleads(ms, k, i);
      GoesStale(ms, k, i);
    }
  }

  const CTIME_MODE: Mode := Mode(false, false, true, true, true, false)
  const MTIME_MODE: Mode := Mode(false, false, true, true, false, true)

  /** Comparing the ctime in the first and in the last backup is not enough: one between
      them that compared the mtime has put the new ctime under the old chunks. */
  lemma MtimeRunMakesStale()
    ensures CanGoStale([CTIME_MODE, MTIME_MODE, CTIME_MODE]) && !CanGoStale([CTIME_MODE, CTIME_MODE, CTIME_MODE])
  {
    var ms := [CTIME_MODE, MTIME_MODE, CTIME_MODE];
    StaleIff(ms);
    assert Misleads(ms, 0, 1);
    StaleIff([CTIME_MODE, CTIME_MODE, CTIME_MODE]);
  }
}

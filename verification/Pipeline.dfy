/** Chunking one file with several workers: a cutter deals chunks round robin into bounded
    channels, workers format them, a collector takes them back in the same rotation and
    commits. Every interleaving is a sequence of the actions below. */
module Pipeline {
  import opened Bytes
  import opened Store

  /** One file on its way: its chunks, whether the chunker fails behind the last one, how
      many workers there are and how many chunks a channel holds. */
  datatype Job = Job(env: Env, repo: Repo, chunks: seq<bytes>, cutFails: bool, workers: nat, depth: nat)
  {
    predicate Valid() {
      0 < workers && 0 < depth
    }
  }

  /** A worker with its two channels: data in, formatted chunks out. */
  datatype Worker = Worker(
    jobs: seq<bytes>, jobsClosed: bool, holding: Option<bytes>, results: seq<Formatted>, resultsClosed: bool)

  /** What the collector has made of the results so far. */
  datatype Tally = Tally(out: seq<Entry>, failed: bool, repo: Repo)

  /** cut is the cutter's index, closed how many job channels it has closed, next the
      collector's index. */
  datatype State = State(cut: nat, closed: nat, pool: seq<Worker>, next: nat, tally: Tally, done: bool)

  datatype Action = Cut | Close | Take(w: nat) | Deliver(w: nat) | Exit(w: nat) | Collect | Finish

  const IDLE := Worker([], false, None, [], false)

  function Init(p: Job): State {
    State(0, 0, seq(p.workers, _ => IDLE), 0, Tally([], false, p.repo), false)
  }

  predicate Enabled(p: Job, s: State, a: Action)
    requires p.Valid() && |s.pool| == p.workers
  {
    match a
    case Cut => s.cut < |p.chunks| && |s.pool[s.cut % p.workers].jobs| < p.depth
    case Close => s.cut == |p.chunks| && s.closed < p.workers
    case Take(w) => w < p.workers && s.pool[w].holding.None? && s.pool[w].jobs != []
    case Deliver(w) => w < p.workers && s.pool[w].holding.Some? && |s.pool[w].results| < p.depth
    case Exit(w) =>
      && w < p.workers && s.pool[w].holding.None? && s.pool[w].jobs == []
      && s.pool[w].jobsClosed && !s.pool[w].resultsClosed
    case Collect => !s.done && s.pool[s.next % p.workers].results != []
    case Finish =>
      !s.done && s.pool[s.next % p.workers].results == [] && s.pool[s.next % p.workers].resultsClosed
  }

  /** One result at the collector. After the first error results are drained, not used. */
  function CollectOne(env: Env, t: Tally, res: Formatted): Tally {
    if t.failed then t
    else if !res.ok then t.(failed := true)
    else
      var s := Commit(env, t.repo, res);
      if s.entry.None? then Tally(t.out, true, s.repo) else Tally(t.out + [s.entry.value], false, s.repo)
  }

  function Do(p: Job, s: State, a: Action): (s': State)
    requires p.Valid() && |s.pool| == p.workers && Enabled(p, s, a)
    ensures |s'.pool| == p.workers
  {
    match a
    case Cut =>
      var w := s.cut % p.workers;
      var x := s.pool[w];
      s.(cut := s.cut + 1, pool := s.pool[w := x.(jobs := x.jobs + [p.chunks[s.cut]])])
    case Close =>
      var x := s.pool[s.closed];
      s.(closed := s.closed + 1, pool := s.pool[s.closed := x.(jobsClosed := true)])
    case Take(w) =>
      var x := s.pool[w];
      s.(pool := s.pool[w := x.(holding := Some(x.jobs[0]), jobs := x.jobs[1..])])
    case Deliver(w) =>
      var x := s.pool[w];
      s.(pool := s.pool[w := x.(holding := None, results := x.results + [Format(p.env, x.holding.value)])])
    case Exit(w) => s.(pool := s.pool[w := s.pool[w].(resultsClosed := true)])
    case Collect =>
      var w := s.next % p.workers;
      var x := s.pool[w];
      s.(
        next := s.next + 1,
        tally := CollectOne(p.env, s.tally, x.results[0]),
        pool := s.pool[w := x.(results := x.results[1..])])
    case Finish => s.(done := true)
  }

  /** The goroutines have all returned. */
  ghost predicate Finished(p: Job, s: State)
    requires |s.pool| == p.workers
  {
    s.done && s.closed == p.workers && forall w :: 0 <= w < p.workers ==> s.pool[w].resultsClosed
  }

  // ---------------------------------------------------------------- runs

  ghost predicate Legal(p: Job, s: State, acts: seq<Action>)
    requires p.Valid() && |s.pool| == p.workers
    decreases |acts|
  {
    acts == [] || (Enabled(p, s, acts[0]) && Legal(p, Do(p, s, acts[0]), acts[1..]))
  }

  ghost function Exec(p: Job, s: State, acts: seq<Action>): (s': State)
    requires p.Valid() && |s.pool| == p.workers && Legal(p, s, acts)
    ensures |s'.pool| == p.workers
    decreases |acts|
  {
    if acts == [] then s else Exec(p, Do(p, s, acts[0]), acts[1..])
  }

  // ---------------------------------------------------------------- the invariant

  /** The chunks of worker w among those cut at or after lo and before hi, in order. */
  ghost function Mine(p: Job, w: nat, lo: nat, hi: nat): seq<bytes>
    requires p.Valid() && lo <= hi <= |p.chunks|
    decreases hi - lo
  {
    if lo == hi then []
    else (if lo % p.workers == w then [p.chunks[lo]] else []) + Mine(p, w, lo + 1, hi)
  }

  lemma {:induction false} MineGrows(p: Job, w: nat, lo: nat, hi: nat)
    requires p.Valid() && lo <= hi < |p.chunks|
    ensures Mine(p, w, lo, hi + 1) == Mine(p, w, lo, hi) + if hi % p.workers == w then [p.chunks[hi]] else []
    decreases hi - lo
  {
    if lo < hi {
      MineGrows(p, w, lo + 1, hi);
    } else {
      assert Mine(p, w, hi + 1, hi + 1) == [];
    }
  }

  function Datas(rs: seq<Formatted>): seq<bytes> {
    if rs == [] then [] else [rs[0].data] + Datas(rs[1..])
  }

  lemma {:induction false} DatasSnoc(rs: seq<Formatted>, r: Formatted)
    ensures Datas(rs + [r]) == Datas(rs) + [r.data]
  {
    if rs == [] {
      assert [r][1..] == [];
    } else {
      assert (rs + [r])[0] == rs[0] && (rs + [r])[1..] == rs[1..] + [r];
      DatasSnoc(rs[1..], r);
    }
  }

  function Held(h: Option<bytes>): seq<bytes> {
    match h case None => [] case Some(data) => [data]
  }

  /** What a worker has been dealt and the collector has not yet taken, oldest first. */
  function InFlight(x: Worker): seq<bytes> {
    Datas(x.results) + Held(x.holding) + x.jobs
  }

  /** Committing the chunks one after the other, stopping at the first error. */
  function Committed(env: Env, repo: Repo, chunks: seq<bytes>): Tally {
    if chunks == [] then Tally([], false, repo)
    else CollectOne(env, Committed(env, repo, chunks[..|chunks| - 1]), Format(env, chunks[|chunks| - 1]))
  }

  ghost predicate WorkerInv(p: Job, s: State, w: nat)
    requires p.Valid() && |s.pool| == p.workers && w < p.workers && s.next <= s.cut <= |p.chunks|
  {
    var x := s.pool[w];
    && InFlight(x) == Mine(p, w, s.next, s.cut)
    && (forall k :: 0 <= k < |x.results| ==> x.results[k] == Format(p.env, x.results[k].data))
    && (x.jobsClosed <==> w < s.closed)
    && (x.resultsClosed ==> x.jobsClosed && x.jobs == [] && x.holding.None?)
  }

  ghost predicate Inv(p: Job, s: State)
    requires p.Valid()
  {
    && |s.pool| == p.workers
    && s.next <= s.cut <= |p.chunks| && s.closed <= p.workers
    && (0 < s.closed ==> s.cut == |p.chunks|)
    && (forall w :: 0 <= w < p.workers ==> WorkerInv(p, s, w))
    && (s.done ==> s.next == |p.chunks|)
    && s.tally == Committed(p.env, p.repo, p.chunks[..s.next])
  }

  lemma InitInv(p: Job)
    requires p.Valid()
    ensures Inv(p, Init(p))
  {
  }

  /** The head of what the collector's next worker has in flight is the next chunk. */
  lemma NextInLine(p: Job, s: State)
    requires p.Valid() && Inv(p, s)
    ensures var x := s.pool[s.next % p.workers];
      if s.next == s.cut then InFlight(x) == [] else InFlight(x) != [] && InFlight(x)[0] == p.chunks[s.next]
  {
    assert WorkerInv(p, s, s.next % p.workers);
  }

  lemma CutInv(p: Job, s: State)
    requires p.Valid() && Inv(p, s) && Enabled(p, s, Cut)
    ensures Inv(p, Do(p, s, Cut))
  {
    var s' := Do(p, s, Cut);
    forall w | 0 <= w < p.workers
      ensures WorkerInv(p, s', w)
    {
      assert WorkerInv(p, s, w);
      MineGrows(p, w, s.next, s.cut);
      if w == s.cut % p.workers {
        var x := s.pool[w];
        assert InFlight(s'.pool[w]) == InFlight(x) + [p.chunks[s.cut]];
      }
    }
  }

  lemma CollectInv(p: Job, s: State)
    requires p.Valid() && Inv(p, s) && Enabled(p, s, Collect)
    ensures Inv(p, Do(p, s, Collect))
  {
    var s', here := Do(p, s, Collect), s.next % p.workers;
    NextInLine(p, s);
    assert WorkerInv(p, s, here);
    assert s.pool[here].results[0] == Format(p.env, p.chunks[s.next]);
    forall w | 0 <= w < p.workers
      ensures WorkerInv(p, s', w)
    {
      CollectWorkerInv(p, s, s', w);
    }
    CommittedNext(p.env, p.repo, p.chunks, s.next);
  }

  lemma CollectWorkerInv(p: Job, s: State, s': State, w: nat)
    requires p.Valid() && Inv(p, s) && w < p.workers && s.next < s.cut
    requires var here := s.next % p.workers; var x := s.pool[here];
      && x.results != []
      && s'.pool == s.pool[here := x.(results := x.results[1..])]
      && s'.next == s.next + 1 && s'.cut == s.cut && s'.closed == s.closed
    ensures WorkerInv(p, s', w)
  {
    var here := s.next % p.workers;
    assert WorkerInv(p, s, here);
    assert WorkerInv(p, s, w);
    TakeResult(s.pool[here], s'.pool[here]);
    MineShrinks(p, w, s.next, s.cut);
    if w == here {
      var x := s.pool[here];
      assert InFlight(s'.pool[here]) == InFlight(x)[1..];
    }
  }

  lemma CommittedNext(env: Env, repo: Repo, chunks: seq<bytes>, i: nat)
    requires i < |chunks|
    ensures Committed(env, repo, chunks[..i + 1]) ==
      CollectOne(env, Committed(env, repo, chunks[..i]), Format(env, chunks[i]))
  {
    assert chunks[..i + 1][..i] == chunks[..i];
  }

  lemma TakeResult(x: Worker, y: Worker)
    requires x.results != [] && y == x.(results := x.results[1..])
    ensures InFlight(x) == [x.results[0].data] + InFlight(y)
    ensures forall k :: 0 <= k < |y.results| ==> y.results[k] == x.results[k + 1]
  {
  }

  lemma MineShrinks(p: Job, w: nat, lo: nat, hi: nat)
    requires p.Valid() && lo < hi <= |p.chunks|
    ensures lo % p.workers == w ==> Mine(p, w, lo, hi) == [p.chunks[lo]] + Mine(p, w, lo + 1, hi)
    ensures lo % p.workers != w ==> Mine(p, w, lo, hi) == Mine(p, w, lo + 1, hi)
  {
  }

  /** A worker's own step keeps what it has in flight. */
  lemma OwnStep(x: Worker, env: Env)
    ensures x.jobs != [] && x.holding.None? ==>
      InFlight(x.(holding := Some(x.jobs[0]), jobs := x.jobs[1..])) == InFlight(x)
    ensures x.holding.Some? ==>
      InFlight(x.(holding := None, results := x.results + [Format(env, x.holding.value)])) == InFlight(x)
  {
    if x.holding.Some? {
      DatasSnoc(x.results, Format(env, x.holding.value));
    } else if x.jobs != [] {
      assert x.jobs == [x.jobs[0]] + x.jobs[1..];
    }
  }

  lemma WorkerStepInv(p: Job, s: State, a: Action)
    requires p.Valid() && Inv(p, s) && Enabled(p, s, a) && (a.Take? || a.Deliver? || a.Exit?)
    ensures Inv(p, Do(p, s, a))
  {
    var s', x := Do(p, s, a), s.pool[a.w];
    OwnStep(x, p.env);
    assert WorkerInv(p, s, a.w);
    assert InFlight(s'.pool[a.w]) == InFlight(x);
    forall w | 0 <= w < p.workers
      ensures WorkerInv(p, s', w)
    {
      assert WorkerInv(p, s, w);
      assert w != a.w ==> s'.pool[w] == s.pool[w];
    }
  }

  lemma CloseInv(p: Job, s: State)
    requires p.Valid() && Inv(p, s) && Enabled(p, s, Close)
    ensures Inv(p, Do(p, s, Close))
  {
    var s' := Do(p, s, Close);
    forall w | 0 <= w < p.workers
      ensures WorkerInv(p, s', w)
    {
      assert WorkerInv(p, s, w);
      assert w != s.closed ==> s'.pool[w] == s.pool[w];
    }
  }

  /** When the collector sees a closed channel, every chunk has been cut and collected. */
  lemma ClosedMeansAll(p: Job, s: State)
    requires p.Valid() && Inv(p, s) && Enabled(p, s, Finish)
    ensures s.next == s.cut == |p.chunks| && Inv(p, Do(p, s, Finish))
  {
    NextInLine(p, s);
    assert WorkerInv(p, s, s.next % p.workers);
    var s' := Do(p, s, Finish);
    forall w | 0 <= w < p.workers
      ensures WorkerInv(p, s', w)
    {
      assert WorkerInv(p, s, w);
    }
  }

  lemma StepInv(p: Job, s: State, a: Action)
    requires p.Valid() && Inv(p, s) && Enabled(p, s, a)
    ensures Inv(p, Do(p, s, a))
  {
    match a {
      case Cut => CutInv(p, s);
      case Close => CloseInv(p, s);
      case Take(_) => WorkerStepInv(p, s, a);
      case Deliver(_) => WorkerStepInv(p, s, a);
      case Exit(_) => WorkerStepInv(p, s, a);
      case Collect => CollectInv(p, s);
      case Finish => ClosedMeansAll(p, s);
    }
  }

  lemma {:induction false} ExecInv(p: Job, s: State, acts: seq<Action>)
    requires p.Valid() && Inv(p, s) && Legal(p, s, acts)
    ensures Inv(p, Exec(p, s, acts))
    decreases |acts|
  {
    if acts != [] {
      StepInv(p, s, acts[0]);
      ExecInv(p, Do(p, s, acts[0]), acts[1..]);
    }
  }

  // ---------------------------------------------------------------- no deadlock

  /** Some goroutine can always go on until all have returned. */
  lemma NeverStuck(p: Job, s: State) returns (a: Action)
    requires p.Valid() && Inv(p, s) && !Finished(p, s)
    ensures Enabled(p, s, a)
  {
    if !s.done {
      var w := s.next % p.workers;
      NextInLine(p, s);
      assert WorkerInv(p, s, w);
      var x := s.pool[w];
      if x.results != [] {
        a := Collect;
      } else if x.resultsClosed {
        a := Finish;
      } else if x.holding.Some? {
        a := Deliver(w);
      } else if x.jobs != [] {
        a := Take(w);
      } else if x.jobsClosed {
        a := Exit(w);
      } else if s.cut < |p.chunks| {
        a := Cut;
      } else {
        a := Close;
      }
    } else if s.closed < p.workers {
      a := Close;
    } else {
      var w :| 0 <= w < p.workers && !s.pool[w].resultsClosed;
      assert WorkerInv(p, s, w);
      assert Mine(p, w, s.next, s.cut) == [];
      a := Exit(w);
    }
  }

  // ---------------------------------------------------------------- termination

  /** How many actions are left to a worker's share. */
  function Work(x: Worker): nat {
    3 * |x.jobs| + 2 * |Held(x.holding)| + |x.results| + if x.resultsClosed then 0 else 1
  }

  function PoolWork(pool: seq<Worker>): nat {
    if pool == [] then 0 else Work(pool[0]) + PoolWork(pool[1..])
  }

  lemma {:induction false} PoolWorkUpdate(pool: seq<Worker>, w: nat, x: Worker)
    requires w < |pool|
    ensures PoolWork(pool[w := x]) == PoolWork(pool) - Work(pool[w]) + Work(x)
  {
    if w == 0 {
      assert pool[0 := x][1..] == pool[1..];
    } else {
      PoolWorkUpdate(pool[1..], w - 1, x);
      assert pool[w := x][1..] == pool[1..][w - 1 := x];
    }
  }

  /** How many actions are left. */
  function Left(p: Job, s: State): int {
    4 * (|p.chunks| - s.cut) + PoolWork(s.pool) + (p.workers - s.closed) + if s.done then 0 else 1
  }

  lemma StepCounts(p: Job, s: State, a: Action)
    requires p.Valid() && |s.pool| == p.workers && s.closed <= p.workers && Enabled(p, s, a)
    ensures Left(p, Do(p, s, a)) == Left(p, s) - 1
  {
    var s' := Do(p, s, a);
    match a {
      case Cut => PoolWorkUpdate(s.pool, s.cut % p.workers, s'.pool[s.cut % p.workers]);
      case Close => PoolWorkUpdate(s.pool, s.closed, s'.pool[s.closed]);
      case Take(w) => PoolWorkUpdate(s.pool, w, s'.pool[w]);
      case Deliver(w) => PoolWorkUpdate(s.pool, w, s'.pool[w]);
      case Exit(w) => PoolWorkUpdate(s.pool, w, s'.pool[w]);
      case Collect => PoolWorkUpdate(s.pool, s.next % p.workers, s'.pool[s.next % p.workers]);
      case Finish =>
    }
  }

  lemma {:induction false} RunCounts(p: Job, s: State, acts: seq<Action>)
    requires p.Valid() && Inv(p, s) && Legal(p, s, acts)
    ensures Left(p, Exec(p, s, acts)) == Left(p, s) - |acts|
    decreases |acts|
  {
    if acts != [] {
      StepCounts(p, s, acts[0]);
      StepInv(p, s, acts[0]);
      RunCounts(p, Do(p, s, acts[0]), acts[1..]);
    }
  }

  lemma {:induction false} IdlePoolWork(n: nat)
    ensures PoolWork(seq(n, _ => IDLE)) == n
  {
    if n > 0 {
      assert seq(n, _ => IDLE)[1..] == seq(n - 1, _ => IDLE);
      IdlePoolWork(n - 1);
    }
  }

  lemma {:induction false} DonePoolWork(pool: seq<Worker>)
    requires forall w :: 0 <= w < |pool| ==> Work(pool[w]) == 0
    ensures PoolWork(pool) == 0
  {
    if pool != [] {
      DonePoolWork(pool[1..]);
    }
  }

  // ---------------------------------------------------------------- what every run yields

  /** What the caller gets: the chunk list, unless collecting or cutting failed. */
  function Result(p: Job, s: State): Option<seq<Entry>> {
    if s.tally.failed || p.cutFails then None else Some(s.tally.out)
  }

  /** In every interleaving, for any number of workers and any queue depth: a run never
      exceeds a fixed number of actions; where nothing can go on, everything has returned;
      and then the run has had exactly that many actions, and its outcome is that of
      committing the chunks in file order, whatever the schedule was. */
  lemma EveryRun(p: Job, acts: seq<Action>)
    requires p.Valid() && Legal(p, Init(p), acts)
    ensures var s := Exec(p, Init(p), acts);
      && |acts| <= 4 * |p.chunks| + 2 * p.workers + 1
      && ((forall a :: !Enabled(p, s, a)) ==> Finished(p, s))
      && (Finished(p, s) ==>
            |acts| == 4 * |p.chunks| + 2 * p.workers + 1 && s.tally == Committed(p.env, p.repo, p.chunks))
  {
    var s := Exec(p, Init(p), acts);
    InitInv(p);
    ExecInv(p, Init(p), acts);
    RunCounts(p, Init(p), acts);
    IdlePoolWork(p.workers);
    if !Finished(p, s) {
      var a := NeverStuck(p, s);
    } else {
      assert p.chunks[..s.next] == p.chunks;
      forall w | 0 <= w < p.workers
        ensures Work(s.pool[w]) == 0
      {
        assert WorkerInv(p, s, w);
        assert Mine(p, w, s.next, s.cut) == [];
      }
      DonePoolWork(s.pool);
    }
  }

  /** After the first error nothing more is committed, however long the drain goes on. */
  lemma {:induction false} FailureFreezes(p: Job, s: State, acts: seq<Action>)
    requires p.Valid() && |s.pool| == p.workers && Legal(p, s, acts) && s.tally.failed
    ensures Exec(p, s, acts).tally == s.tally
    decreases |acts|
  {
    if acts != [] {
      FailureFreezes(p, Do(p, s, acts[0]), acts[1..]);
    }
  }

  // ---------------------------------------------------------------- against the serial path

  /** The pipeline commits without error exactly when the serial path stores without error
      and every chunk, duplicates included, can be formatted; and then both leave the same
      chunk list, index, objects and counts. */
  lemma {:induction false} CommittedIsSerial(env: Env, repo: Repo, chunks: seq<bytes>)
    ensures var t, l := Committed(env, repo, chunks), AddAll(env, repo, chunks, true);
      && (!t.failed <==> l.entries.Some? && forall k :: 0 <= k < |chunks| ==> env.formats(chunks[k]))
      && (!t.failed ==> l == Listed(Some(t.out), t.repo))
    decreases |chunks|
  {
    if chunks != [] {
      var init, last := chunks[..|chunks| - 1], chunks[|chunks| - 1];
      assert chunks == init + [last];
      CommittedIsSerial(env, repo, init);
      AddAllSnoc(env, repo, init, last, true);
      var t := Committed(env, repo, init);
      CommitIsAdd(env, t.repo, last);
      assert forall k :: 0 <= k < |init| ==> init[k] == chunks[k];
    }
  }

  /** A finished run returns what the serial path returns, in both its result and all it
      leaves in the repository. */
  lemma RunRefinesSerial(p: Job, acts: seq<Action>)
    requires p.Valid() && Legal(p, Init(p), acts) && Finished(p, Exec(p, Init(p), acts))
    requires Result(p, Exec(p, Init(p), acts)).Some?
    ensures var s := Exec(p, Init(p), acts);
      AddAll(p.env, p.repo, p.chunks, true) == Listed(Result(p, s), s.tally.repo)
  {
    EveryRun(p, acts);
    CommittedIsSerial(p.env, p.repo, p.chunks);
  }
}

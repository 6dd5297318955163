/** The pool that writes regular files while one goroutine drives the item stream. In any
    order its workers get to run, the extraction ends as that of one goroutine which
    remembers files as early; and as the serial one does unless a failing write whose
    failure is dismissed has a later link. */
module WritePool {
  import opened Bytes
  import opened Extract
  import opened Dismissed

  /** Submitted jobs wait in the channel or are with a worker, which has opened the file
      or not yet. Jobs are named by the index of their item; `inflight` is the wait group
      a drain waits on. */
  datatype Pool = Pool(
    walk: Walk, tree: Tree, queue: seq<nat>, busy: map<nat, bool>, inflight: int, err: bool)

  /** The driver takes one item, or stamps one directory; a worker takes a job, creates its
      file, or is done with it. */
  datatype Event = Drive | Take | Create(job: nat) | Close(job: nat)

  function NewPool(t: Tree): Pool {
    Pool(Start(t).walk, t, [], map[], 0, false)
  }

  predicate Drains(act: Act) {
    act.StampTop? || act.LinkTo? || act.Finish?
  }

  function Elements(q: seq<nat>): set<nat> {
    set j | j in q
  }

  function Flying(s: Pool): set<nat> {
    s.busy.Keys + Elements(s.queue)
  }

  /** The driver waits for the wait group before it stamps, links or finishes, and for
      room in the channel before it submits; a worker waits for a job. */
  predicate Enabled(items: seq<Item>, workers: nat, s: Pool, ev: Event)
    requires Valid(items, s.walk)
  {
    match ev
    case Drive =>
      && s.walk.status.Going?
      && (Drains(Todo(items, s.walk)) ==> s.inflight == 0)
      && (Todo(items, s.walk).WriteFile? ==> |s.queue| < 2 * workers)
    case Take => s.queue != [] && |s.busy| < workers
    case Create(j) => j in s.busy && !s.busy[j] && j < |items|
    case Close(j) => j in s.busy && s.busy[j] && j < |items|
  }

  function DriveStep(items: seq<Item>, bad: Faults, s: Pool): (s': Pool)
    requires Valid(items, s.walk)
    ensures Valid(items, s'.walk)
  {
    var act := Todo(items, s.walk);
    if Drains(act) && s.err then s.(walk := s.walk.(status := Failed))
    else if act.WriteFile? then
      s.(walk := Ahead(items, bad, s.walk), tree := Prepare(s.tree, Loc(items[s.walk.next].path)),
         queue := s.queue + [s.walk.next], inflight := s.inflight + 1)
    else s.(walk := Ahead(items, bad, s.walk), tree := Effect(items, bad, s.walk, s.tree))
  }

  function TakeStep(s: Pool): Pool
    requires s.queue != []
  {
    s.(queue := s.queue[1..], busy := s.busy[s.queue[0] := false])
  }

  function CreateStep(items: seq<Item>, s: Pool, j: nat): Pool
    requires j < |items|
  {
    s.(tree := Enter(s.tree, Loc(items[j].path), Leaf(items[j], false)), busy := s.busy[j := true])
  }

  function CloseStep(items: seq<Item>, bad: Faults, s: Pool, j: nat): Pool
    requires j < |items|
  {
    var s' := s.(busy := s.busy - {j}, inflight := s.inflight - 1);
    s'.(tree := s.tree[Loc(items[j].path) := Made(items, bad, j)], err := s.err || j in bad.fatal)
  }

  function Step(items: seq<Item>, bad: Faults, workers: nat, s: Pool, ev: Event): (s': Pool)
    requires Valid(items, s.walk) && Enabled(items, workers, s, ev)
    ensures Valid(items, s'.walk)
  {
    match ev
    case Drive => DriveStep(items, bad, s)
    case Take => TakeStep(s)
    case Create(j) => CreateStep(items, s, j)
    case Close(j) => CloseStep(items, bad, s, j)
  }

  // ---------------------------------------------------------------- the wait group

  /** A job is in one place only; the channel keeps their order. */
  ghost predicate Placed(s: Pool) {
    && (forall i, j :: 0 <= i < j < |s.queue| ==> s.queue[i] < s.queue[j])
    && (forall j :: j in s.queue ==> j !in s.busy)
  }

  ghost predicate JobsKnown(items: seq<Item>, s: Pool) {
    forall j :: j in s.queue || j in s.busy ==> j < s.walk.next && j < |items| && Leafy(items[j])
  }

  /** The wait group counts the jobs in the channel and with workers. */
  ghost predicate Counted(items: seq<Item>, workers: nat, s: Pool) {
    && Valid(items, s.walk) && Nested(items, s.walk)
    && s.inflight == |s.queue| + |s.busy| && |s.queue| <= 2 * workers && |s.busy| <= workers
    && (!s.walk.status.Going? ==> s.inflight == 0)
    && Placed(s) && JobsKnown(items, s)
  }

  lemma CountedDrive(items: seq<Item>, bad: Faults, workers: nat, s: Pool)
    requires Counted(items, workers, s) && Enabled(items, workers, s, Drive)
    ensures Counted(items, workers, DriveStep(items, bad, s))
  {
    var s' := DriveStep(items, bad, s);
    NestedAhead(items, bad, s.walk);
    assert Nested(items, s'.walk);
    forall j | j in s'.queue
      ensures j !in s'.busy && j < s'.walk.next && Leafy(items[j])
    {
      assert j in s.queue || j == s.walk.next;
    }
    forall i | 0 <= i < |s.queue|
      ensures s.queue[i] < s.walk.next
    {
      assert s.queue[i] in s.queue;
    }
  }

  lemma CountedTake(items: seq<Item>, workers: nat, s: Pool)
    requires Counted(items, workers, s) && s.queue != [] && |s.busy| < workers
    ensures Counted(items, workers, TakeStep(s))
  {
    var s', j := TakeStep(s), s.queue[0];
    assert j in s.queue;
    assert s'.busy.Keys == s.busy.Keys + {j};
    forall i | i in s'.queue
      ensures i in s.queue && i != j
    {
    }
  }

  lemma CountedClose(items: seq<Item>, bad: Faults, workers: nat, s: Pool, j: nat)
    requires Counted(items, workers, s) && j in s.busy
    ensures j < |items| && Counted(items, workers, CloseStep(items, bad, s, j))
  {
    assert (s.busy - {j}).Keys == s.busy.Keys - {j};
  }

  lemma CountedStep(items: seq<Item>, bad: Faults, workers: nat, s: Pool, ev: Event)
    requires Counted(items, workers, s) && Enabled(items, workers, s, ev)
    ensures Counted(items, workers, Step(items, bad, workers, s, ev))
  {
    match ev {
      case Drive => CountedDrive(items, bad, workers, s);
      case Take => CountedTake(items, workers, s);
      case Create(j) => assert s.busy[j := true].Keys == s.busy.Keys;
      case Close(j) => CountedClose(items, bad, workers, s, j);
    }
  }

  // ---------------------------------------------------------------- what is still hidden

  /** A path some job in the set will write; a directory above such a path. */
  ghost predicate Pending(items: seq<Item>, jobs: set<nat>, q: Path) {
    exists j :: j in jobs && j < |items| && Loc(items[j].path) == q
  }

  ghost predicate Above(items: seq<Item>, jobs: set<nat>, q: Path) {
    exists j :: j in jobs && j < |items| && Parent(Loc(items[j].path)) == q
  }

  /** The full tree is the partial one with the jobs done, in whatever order. */
  ghost predicate Overlays(items: seq<Item>, bad: Faults, full: Tree, part: Tree, jobs: set<nat>) {
    && (forall j :: j in jobs && j < |items| ==>
         Loc(items[j].path) in full && full[Loc(items[j].path)] == Made(items, bad, j))
    && (forall q :: !Pending(items, jobs, q) ==> (q in full <==> q in part))
    && (forall q :: q in part && !Pending(items, jobs, q) ==>
         full[q] == if Above(items, jobs, q) && part[q].Dir? then Dir(None) else part[q])
  }

  /** The directories the jobs write into are there, and those with an open file were
      changed by it. */
  ghost predicate Housed(items: seq<Item>, part: Tree, jobs: set<nat>, begun: set<nat>) {
    && (forall j :: j in jobs && j < |items| ==> IsDir(part, Parent(Loc(items[j].path))))
    && (forall j :: j in jobs && j in begun && j < |items| ==> part[Parent(Loc(items[j].path))] == Dir(None))
  }

  ghost predicate Hidden(items: seq<Item>, bad: Faults, full: Tree, part: Tree, jobs: set<nat>, begun: set<nat>) {
    Overlays(items, bad, full, part, jobs) && Housed(items, part, jobs, begun)
  }

  /** No job writes p, a directory above p or the destination. */
  ghost predicate Undisturbed(items: seq<Item>, jobs: set<nat>, p: Path) {
    !Pending(items, jobs, p) && !Pending(items, jobs, "") && forall d :: Inside(p, d) ==> !Pending(items, jobs, d)
  }

  lemma AboveIsThere(items: seq<Item>, part: Tree, jobs: set<nat>, begun: set<nat>, q: Path)
    requires Housed(items, part, jobs, begun) && Above(items, jobs, q)
    ensures IsDir(part, q)
  {
  }

  lemma MarkOverlays(items: seq<Item>, bad: Faults, full: Tree, part: Tree, jobs: set<nat>, d: Path)
    requires Overlays(items, bad, full, part, jobs) && !Pending(items, jobs, d) && IsDir(part, d)
    ensures IsDir(full, d)
    ensures Overlays(items, bad, full[d := Dir(None)], part[d := Dir(None)], jobs)
  {
    forall j | j in jobs && j < |items|
      ensures Loc(items[j].path) != d
    {
      assert Pending(items, jobs, Loc(items[j].path));
    }
  }

  lemma MarkBoth(items: seq<Item>, bad: Faults, full: Tree, part: Tree, jobs: set<nat>, begun: set<nat>, d: Path)
    requires Hidden(items, bad, full, part, jobs, begun) && !Pending(items, jobs, d) && IsDir(part, d)
    ensures IsDir(full, d)
    ensures Hidden(items, bad, full[d := Dir(None)], part[d := Dir(None)], jobs, begun)
  {
    MarkOverlays(items, bad, full, part, jobs, d);
    assert Housed(items, part[d := Dir(None)], jobs, begun);
  }

  lemma TouchBoth(items: seq<Item>, bad: Faults, full: Tree, part: Tree, jobs: set<nat>, begun: set<nat>, p: Path)
    requires Hidden(items, bad, full, part, jobs, begun) && !Pending(items, jobs, Parent(p))
    ensures Hidden(items, bad, Touch(full, p), Touch(part, p), jobs, begun)
  {
    if IsDir(part, Parent(p)) {
      MarkBoth(items, bad, full, part, jobs, begun, Parent(p));
    } else {
      assert !IsDir(full, Parent(p));
    }
  }

  lemma PutBoth(items: seq<Item>, bad: Faults, full: Tree, part: Tree, jobs: set<nat>, begun: set<nat>, p: Path, node: Node)
    requires Hidden(items, bad, full, part, jobs, begun) && !Pending(items, jobs, p) && !Above(items, jobs, p)
    ensures Hidden(items, bad, full[p := node], part[p := node], jobs, begun)
  {
    forall j | j in jobs && j < |items|
      ensures Loc(items[j].path) != p && Parent(Loc(items[j].path)) != p
    {
      assert Pending(items, jobs, Loc(items[j].path));
      assert Above(items, jobs, Parent(Loc(items[j].path)));
    }
  }

  lemma EnterBoth(items: seq<Item>, bad: Faults, full: Tree, part: Tree, jobs: set<nat>, begun: set<nat>, p: Path, node: Node)
    requires Hidden(items, bad, full, part, jobs, begun) && Undisturbed(items, jobs, p) && !Above(items, jobs, p)
    ensures Hidden(items, bad, Enter(full, p, node), Enter(part, p, node), jobs, begun)
  {
    assert !Pending(items, jobs, Parent(p));
    TouchBoth(items, bad, full, part, jobs, begun, p);
    PutBoth(items, bad, Touch(full, p), Touch(part, p), jobs, begun, p, node);
  }

  lemma {:induction false} ParentsBoth(items: seq<Item>, bad: Faults, full: Tree, part: Tree, jobs: set<nat>, begun: set<nat>, p: Path)
    requires Hidden(items, bad, full, part, jobs, begun) && Undisturbed(items, jobs, p)
    ensures Hidden(items, bad, MakeParents(full, p), MakeParents(part, p), jobs, begun)
    decreases |p|
  {
    var d := Parent(p);
    assert !Pending(items, jobs, d);
    if p != "" && d !in part {
      ClearAbove(items, jobs, p);
      ParentsBoth(items, bad, full, part, jobs, begun, d);
      if Above(items, jobs, d) {
        AboveIsThere(items, part, jobs, begun, d);
      }
      EnterBoth(items, bad, MakeParents(full, d), MakeParents(part, d), jobs, begun, d, Dir(None));
    }
  }

  lemma ClearAbove(items: seq<Item>, jobs: set<nat>, p: Path)
    requires Undisturbed(items, jobs, p)
    ensures Undisturbed(items, jobs, Parent(p))
  {
    forall d | Inside(Parent(p), d)
      ensures !Pending(items, jobs, d)
    {
      if Parent(p) != "" {
        InsideTrans(p, Parent(p), d);
      }
    }
  }

  lemma RemoveBoth(items: seq<Item>, bad: Faults, full: Tree, part: Tree, jobs: set<nat>, begun: set<nat>, p: Path)
    requires Hidden(items, bad, full, part, jobs, begun) && !Pending(items, jobs, p) && !Above(items, jobs, p)
    ensures Hidden(items, bad, full - {p}, part - {p}, jobs, begun)
  {
    forall j | j in jobs && j < |items|
      ensures Loc(items[j].path) != p && Parent(Loc(items[j].path)) != p
    {
      assert Pending(items, jobs, Loc(items[j].path));
      assert Above(items, jobs, Parent(Loc(items[j].path)));
    }
  }

  lemma ClearBoth(items: seq<Item>, bad: Faults, full: Tree, part: Tree, jobs: set<nat>, begun: set<nat>, p: Path)
    requires Hidden(items, bad, full, part, jobs, begun) && Undisturbed(items, jobs, p)
    ensures Hidden(items, bad, Clear(full, p), Clear(part, p), jobs, begun)
  {
    assert !Pending(items, jobs, Parent(p));
    if Above(items, jobs, p) {
      AboveIsThere(items, part, jobs, begun, p);
    } else if p in part && part[p].Leaf? {
      TouchBoth(items, bad, full, part, jobs, begun, p);
      RemoveBoth(items, bad, Touch(full, p), Touch(part, p), jobs, begun, p);
    }
  }

  lemma PrepareBoth(items: seq<Item>, bad: Faults, full: Tree, part: Tree, jobs: set<nat>, begun: set<nat>, p: Path)
    requires Hidden(items, bad, full, part, jobs, begun) && Undisturbed(items, jobs, p)
    ensures Hidden(items, bad, Prepare(full, p), Prepare(part, p), jobs, begun)
  {
    ClearBoth(items, bad, full, part, jobs, begun, p);
    ParentsBoth(items, bad, Clear(full, p), Clear(part, p), jobs, begun, p);
  }

  // ---------------------------------------------------------------- a job's life

  /** Paths of the jobs with one more. */
  lemma OneMore(items: seq<Item>, jobs: set<nat>, n: nat, q: Path)
    requires n < |items|
    ensures Pending(items, jobs + {n}, q) <==> Pending(items, jobs, q) || q == Loc(items[n].path)
    ensures Above(items, jobs + {n}, q) <==> Above(items, jobs, q) || q == Parent(Loc(items[n].path))
  {
    assert n in jobs + {n};
    if Pending(items, jobs, q) {
      var j :| j in jobs && j < |items| && Loc(items[j].path) == q;
      assert j in jobs + {n};
    }
    if Above(items, jobs, q) {
      var j :| j in jobs && j < |items| && Parent(Loc(items[j].path)) == q;
      assert j in jobs + {n};
    }
  }

  lemma SubmitOverlays(items: seq<Item>, bad: Faults, full: Tree, part: Tree, jobs: set<nat>, n: nat)
    requires n < |items| && Overlays(items, bad, full, part, jobs)
    requires Undisturbed(items, jobs, Loc(items[n].path)) && IsDir(part, Parent(Loc(items[n].path)))
    ensures Overlays(items, bad, Enter(full, Loc(items[n].path), Made(items, bad, n)), part, jobs + {n})
  {
    var p := Loc(items[n].path);
    var full' := Enter(full, p, Made(items, bad, n));
    assert !Pending(items, jobs, Parent(p));
    forall j | j in jobs + {n} && j < |items|
      ensures Loc(items[j].path) in full' && full'[Loc(items[j].path)] == Made(items, bad, j)
    {
      if j in jobs {
        assert Pending(items, jobs, Loc(items[j].path));
      }
    }
    forall q | !Pending(items, jobs + {n}, q)
      ensures q in full' <==> q in part
      ensures q in part ==> full'[q] == if Above(items, jobs + {n}, q) && part[q].Dir? then Dir(None) else part[q]
    {
      OneMore(items, jobs, n, q);
    }
  }

  /** A job comes into being: the serial extraction has written its file already. */
  lemma SubmitHides(items: seq<Item>, bad: Faults, full: Tree, part: Tree, jobs: set<nat>, begun: set<nat>, n: nat)
    requires n < |items| && n !in jobs && n !in begun && Hidden(items, bad, full, part, jobs, begun)
    requires Undisturbed(items, jobs, Loc(items[n].path)) && IsDir(part, Parent(Loc(items[n].path)))
    ensures Hidden(items, bad, Enter(full, Loc(items[n].path), Made(items, bad, n)), part, jobs + {n}, begun)
  {
    SubmitOverlays(items, bad, full, part, jobs, n);
  }

  /** Jobs that have their paths to themselves. */
  ghost predicate Alone(items: seq<Item>, jobs: set<nat>, j: nat)
    requires j < |items|
  {
    && Loc(items[j].path) != ""
    && forall k :: k in jobs && k < |items| && k != j ==>
         Loc(items[k].path) != Loc(items[j].path) && Parent(Loc(items[k].path)) != Loc(items[j].path)
  }

  /** What is at a path a job writes does not show. */
  lemma PutHidden(items: seq<Item>, bad: Faults, full: Tree, part: Tree, jobs: set<nat>, p: Path, node: Node)
    requires Overlays(items, bad, full, part, jobs) && Pending(items, jobs, p)
    ensures Overlays(items, bad, full, part[p := node], jobs)
  {
  }

  lemma CreateOverlays(items: seq<Item>, bad: Faults, full: Tree, part: Tree, jobs: set<nat>, j: nat)
    requires j < |items| && j in jobs && Overlays(items, bad, full, part, jobs) && Loc(items[j].path) != ""
    ensures Overlays(items, bad, full, Enter(part, Loc(items[j].path), Leaf(items[j], false)), jobs)
  {
    var p := Loc(items[j].path);
    assert Pending(items, jobs, p);
    assert Above(items, jobs, Parent(p));
    assert Overlays(items, bad, full, Touch(part, p), jobs);
    PutHidden(items, bad, full, Touch(part, p), jobs, p, Leaf(items[j], false));
  }

  lemma CreateHoused(items: seq<Item>, part: Tree, jobs: set<nat>, begun: set<nat>, j: nat)
    requires j < |items| && j in jobs && Housed(items, part, jobs, begun) && Alone(items, jobs, j)
    ensures Housed(items, Enter(part, Loc(items[j].path), Leaf(items[j], false)), jobs, begun + {j})
  {
    var p := Loc(items[j].path);
    assert IsDir(part, Parent(p)) && Parent(p) != p;
    forall k | k in jobs && k < |items|
      ensures Parent(Loc(items[k].path)) != p
    {
    }
  }

  /** A worker creates the file: nothing becomes visible that was not promised. */
  lemma CreateHides(items: seq<Item>, bad: Faults, full: Tree, part: Tree, jobs: set<nat>, begun: set<nat>, j: nat)
    requires j < |items| && j in jobs && Hidden(items, bad, full, part, jobs, begun) && Alone(items, jobs, j)
    ensures Hidden(items, bad, full, Enter(part, Loc(items[j].path), Leaf(items[j], false)), jobs, begun + {j})
  {
    CreateOverlays(items, bad, full, part, jobs, j);
    CreateHoused(items, part, jobs, begun, j);
  }

  lemma CloseOverlaysAt(items: seq<Item>, bad: Faults, full: Tree, part: Tree, jobs: set<nat>, j: nat, q: Path)
    requires j < |items| && j in jobs && Overlays(items, bad, full, part, jobs) && !Pending(items, jobs - {j}, q)
    requires IsDir(part, Parent(Loc(items[j].path))) && part[Parent(Loc(items[j].path))] == Dir(None)
    ensures var part' := part[Loc(items[j].path) := Made(items, bad, j)];
      && (q in full <==> q in part')
      && (q in part' ==>
           full[q] == if Above(items, jobs - {j}, q) && part'[q].Dir? then Dir(None) else part'[q])
  {
    assert jobs == jobs - {j} + {j};
    OneMore(items, jobs - {j}, j, q);
  }

  lemma CloseOverlays(items: seq<Item>, bad: Faults, full: Tree, part: Tree, jobs: set<nat>, j: nat)
    requires j < |items| && j in jobs && Overlays(items, bad, full, part, jobs)
    requires IsDir(part, Parent(Loc(items[j].path))) && part[Parent(Loc(items[j].path))] == Dir(None)
    ensures Overlays(items, bad, full, part[Loc(items[j].path) := Made(items, bad, j)], jobs - {j})
  {
    var part' := part[Loc(items[j].path) := Made(items, bad, j)];
    forall q | !Pending(items, jobs - {j}, q)
      ensures q in full <==> q in part'
      ensures q in part' ==> full[q] == if Above(items, jobs - {j}, q) && part'[q].Dir? then Dir(None) else part'[q]
    {
      CloseOverlaysAt(items, bad, full, part, jobs, j, q);
    }
  }

  /** A worker is done with a file. */
  lemma CloseHides(items: seq<Item>, bad: Faults, full: Tree, part: Tree, jobs: set<nat>, begun: set<nat>, j: nat)
    requires j < |items| && j in jobs && j in begun && Hidden(items, bad, full, part, jobs, begun) && Alone(items, jobs, j)
    ensures Hidden(items, bad, full, part[Loc(items[j].path) := Made(items, bad, j)], jobs - {j}, begun - {j})
  {
    CloseOverlays(items, bad, full, part, jobs, j);
  }

  lemma NoneHidden(items: seq<Item>, bad: Faults, full: Tree, part: Tree)
    ensures Hidden(items, bad, full, part, {}, {}) <==> full == part
  {
    assert forall q :: !Pending(items, {}, q) && !Above(items, {}, q);
    if Hidden(items, bad, full, part, {}, {}) {
      assert forall q :: q in full <==> q in part;
      assert full.Keys == part.Keys;
    }
  }

  // ---------------------------------------------------------------- the pool against the serial extraction

  function BegunIn(busy: map<nat, bool>): set<nat> {
    set j | j in busy && busy[j]
  }

  function Begun(s: Pool): set<nat> {
    BegunIn(s.busy)
  }

  ghost predicate AnyBad(bad: Faults, jobs: set<nat>) {
    exists j :: j in jobs && j in bad.fatal
  }

  /** The serial extraction has come as far, and has done what the pool still has to. */
  ghost predicate Agrees(items: seq<Item>, bad: Faults, r: Serial, s: Pool) {
    && r.walk == s.walk && !s.err && !AnyBad(bad, Flying(s))
    && Hidden(items, bad, r.tree, s.tree, Flying(s), Begun(s))
  }

  /** The serial extraction has failed; the pool will when it next waits for its jobs. */
  ghost predicate Doomed(bad: Faults, r: Serial, s: Pool) {
    r.walk.status.Failed? && !s.walk.status.Finished? && (s.err || AnyBad(bad, Flying(s)))
  }

  ghost predicate Related(items: seq<Item>, bad: Faults, r: Serial, s: Pool) {
    SerialInv(items, bad, r) && (Agrees(items, bad, r, s) || Doomed(bad, r, s))
  }

  lemma FlyingApart(items: seq<Item>, workers: nat, s: Pool, n: nat)
    requires Apart(items) && Counted(items, workers, s) && n < |items| && Named(items[n])
    ensures n !in Flying(s) ==> Undisturbed(items, Flying(s), Loc(items[n].path))
    ensures n !in Flying(s) && Leafy(items[n]) ==> !Above(items, Flying(s), Loc(items[n].path))
    ensures n in Flying(s) ==> Alone(items, Flying(s), n)
  {
    var p := Loc(items[n].path);
    forall k | k in Flying(s) && k < |items| && k != n
      ensures Loc(items[k].path) != p && Loc(items[k].path) != "" && !Inside(p, Loc(items[k].path))
      ensures Leafy(items[n]) ==> Parent(Loc(items[k].path)) != p
    {
      assert Leafy(items[k]);
    }
  }

  lemma NothingFlies(items: seq<Item>, workers: nat, s: Pool)
    requires Counted(items, workers, s) && s.inflight == 0
    ensures Flying(s) == {} && Begun(s) == {}
  {
    assert s.busy.Keys == {};
  }

  /** A path that is new among the parents, or was a directory, is one. */
  lemma ParentIsDir(t: Tree, it: Item)
    requires IsDir(t, "") && Named(it) && Open(it, t) && Loc(it.path) != ""
    ensures IsDir(Prepare(t, Loc(it.path)), Parent(Loc(it.path)))
  {
    var p := Loc(it.path);
    var c := Clear(t, p);
    if Parent(p) in c {
      assert IsDir(t, Parent(p));
      ParentsMade(c, p, Parent(p));
    } else {
      ParentsMade(c, p, "");
    }
  }

  lemma EffectBoth(items: seq<Item>, bad: Faults, w: Walk, full: Tree, part: Tree, jobs: set<nat>, begun: set<nat>)
    requires Valid(items, w) && Hidden(items, bad, full, part, jobs, begun)
    requires Todo(items, w).PushDir? || Todo(items, w).MakeSpecial?
    requires Undisturbed(items, jobs, Loc(items[w.next].path))
    requires Leafy(items[w.next]) ==> !Above(items, jobs, Loc(items[w.next].path))
    ensures Hidden(items, bad, Effect(items, bad, w, full), Effect(items, bad, w, part), jobs, begun)
  {
    var n := w.next;
    var p := Loc(items[n].path);
    PrepareBoth(items, bad, full, part, jobs, begun, p);
    if Todo(items, w).MakeSpecial? {
      EnterBoth(items, bad, Prepare(full, p), Prepare(part, p), jobs, begun, p, Made(items, bad, n));
    } else {
      MakeDirBoth(items, bad, Prepare(full, p), Prepare(part, p), jobs, begun, p);
    }
  }

  lemma MakeDirBoth(items: seq<Item>, bad: Faults, full: Tree, part: Tree, jobs: set<nat>, begun: set<nat>, p: Path)
    requires Hidden(items, bad, full, part, jobs, begun) && Undisturbed(items, jobs, p)
    ensures Hidden(items, bad, MakeDir(full, p), MakeDir(part, p), jobs, begun)
  {
    if p !in part {
      if Above(items, jobs, p) {
        AboveIsThere(items, part, jobs, begun, p);
      }
      EnterBoth(items, bad, full, part, jobs, begun, p, Dir(None));
    }
  }

  /** The driver acts while jobs are in flight. */
  lemma DriveMeanwhile(items: seq<Item>, bad: Faults, workers: nat, r: Serial, s: Pool, r': Serial, s': Pool)
    requires Counted(items, workers, s) && Apart(items) && Agrees(items, bad, r, s) && s.walk.status.Going?
    requires Todo(items, s.walk).PushDir? || Todo(items, s.walk).MakeSpecial?
    requires r' == SerialStep(items, bad, r) && s' == DriveStep(items, bad, s)
    ensures Agrees(items, bad, r', s')
  {
    FlyingApart(items, workers, s, s.walk.next);
    EffectBoth(items, bad, s.walk, r.tree, s.tree, Flying(s), Begun(s));
  }

  /** The driver acts with all jobs done. */
  lemma DriveAlone(items: seq<Item>, bad: Faults, workers: nat, r: Serial, s: Pool, r': Serial, s': Pool)
    requires Counted(items, workers, s) && Agrees(items, bad, r, s)
    requires Enabled(items, workers, s, Drive) && Drains(Todo(items, s.walk))
    requires r' == SerialStep(items, bad, r) && s' == DriveStep(items, bad, s)
    ensures Agrees(items, bad, r', s')
  {
    NothingFlies(items, workers, s);
    NoneHidden(items, bad, r.tree, s.tree);
    NoneHidden(items, bad, s'.tree, s'.tree);
  }

  lemma SubmitFlies(items: seq<Item>, bad: Faults, s: Pool)
    requires Valid(items, s.walk) && JobsKnown(items, s) && Todo(items, s.walk).WriteFile?
    ensures var s', n := DriveStep(items, bad, s), s.walk.next;
      n !in Flying(s) && Flying(s') == Flying(s) + {n} && Begun(s') == Begun(s)
  {
    var s' := DriveStep(items, bad, s);
    assert s'.queue[|s.queue|] == s.walk.next;
  }

  lemma SubmitAgrees(items: seq<Item>, bad: Faults, workers: nat, full: Tree, s: Pool, n: nat)
    requires Counted(items, workers, s) && Apart(items) && Hidden(items, bad, full, s.tree, Flying(s), Begun(s))
    requires n < |items| && Leafy(items[n]) && n !in Flying(s) && IsDir(full, "") && Open(items[n], full)
    ensures var p := Loc(items[n].path);
      Hidden(items, bad, Enter(Prepare(full, p), p, Made(items, bad, n)), Prepare(s.tree, p), Flying(s) + {n}, Begun(s))
  {
    var p := Loc(items[n].path);
    FlyingApart(items, workers, s, n);
    PrepareBoth(items, bad, full, s.tree, Flying(s), Begun(s), p);
    ParentIsDir(full, items[n]);
    assert !Pending(items, Flying(s), Parent(p));
    SubmitHides(items, bad, Prepare(full, p), Prepare(s.tree, p), Flying(s), Begun(s), n);
  }

  lemma NoneBad(bad: Faults, jobs: set<nat>, n: nat)
    ensures AnyBad(bad, jobs + {n}) <==> AnyBad(bad, jobs) || n in bad.fatal
  {
    assert n in jobs + {n};
    if AnyBad(bad, jobs) {
      var j :| j in jobs && j in bad.fatal;
      assert j in jobs + {n};
    }
  }

  lemma SubmitTrees(items: seq<Item>, bad: Faults, r: Serial, s: Pool)
    requires Valid(items, s.walk) && r.walk == s.walk && s.walk.status.Going? && Todo(items, s.walk).WriteFile?
    ensures var r', s', p := SerialStep(items, bad, r), DriveStep(items, bad, s), Loc(items[s.walk.next].path);
      && s'.tree == Prepare(s.tree, p) && s'.err == s.err && s'.walk.status.Going?
      && r'.tree == Enter(Prepare(r.tree, p), p, Made(items, bad, s.walk.next))
      && (if s.walk.next in bad.fatal then r'.walk.status.Failed? else r'.walk == s'.walk)
  {
  }

  lemma DriveSubmits(items: seq<Item>, bad: Faults, workers: nat, r: Serial, s: Pool, r': Serial, s': Pool)
    requires Counted(items, workers, s) && Agrees(items, bad, r, s)
    requires Apart(items) && IsDir(r.tree, "") && Ready(items, r.walk, r.tree)
    requires s.walk.status.Going? && Todo(items, s.walk).WriteFile?
    requires r' == SerialStep(items, bad, r) && s' == DriveStep(items, bad, s)
    ensures Agrees(items, bad, r', s') || Doomed(bad, r', s')
  {
    var n := s.walk.next;
    SubmitFlies(items, bad, s);
    SubmitTrees(items, bad, r, s);
    Submitted(items, bad, workers, r, s, n, r', s');
  }

  lemma Submitted(items: seq<Item>, bad: Faults, workers: nat, r: Serial, s: Pool, n: nat, r': Serial, s': Pool)
    requires Counted(items, workers, s) && Agrees(items, bad, r, s)
    requires Apart(items) && IsDir(r.tree, "") && n < |items| && Leafy(items[n]) && Open(items[n], r.tree)
    requires n !in Flying(s) && Flying(s') == Flying(s) + {n} && Begun(s') == Begun(s)
    requires s'.tree == Prepare(s.tree, Loc(items[n].path)) && s'.err == s.err && s'.walk.status.Going?
    requires r'.tree == Enter(Prepare(r.tree, Loc(items[n].path)), Loc(items[n].path), Made(items, bad, n))
    requires if n in bad.fatal then r'.walk.status.Failed? else r'.walk == s'.walk
    ensures Agrees(items, bad, r', s') || Doomed(bad, r', s')
  {
    NoneBad(bad, Flying(s), n);
    SubmitAgrees(items, bad, workers, r.tree, s, n);
  }

  lemma ElementsHead(q: seq<nat>)
    requires q != []
    ensures Elements(q) == {q[0]} + Elements(q[1..])
  {
    assert q == [q[0]] + q[1..];
  }

  lemma BusyMore(busy: map<nat, bool>, j: nat)
    requires j !in busy
    ensures var after := busy[j := false];
      after.Keys == busy.Keys + {j} && |after| == |busy| + 1 && BegunIn(after) == BegunIn(busy)
  {
    var after := busy[j := false];
    assert after.Keys == busy.Keys + {j};
    assert |after.Keys| == |busy.Keys| + 1;
  }

  lemma TakeFlies(s: Pool)
    requires s.queue != [] && s.queue[0] !in s.busy
    ensures var s' := TakeStep(s);
      Flying(s') == Flying(s) && Begun(s') == Begun(s) && |s'.busy| == |s.busy| + 1
  {
    ElementsHead(s.queue);
    BusyMore(s.busy, s.queue[0]);
  }

  lemma CreateFlies(items: seq<Item>, s: Pool, j: nat)
    requires j < |items| && j in s.busy && !s.busy[j]
    ensures var s' := CreateStep(items, s, j);
      && Flying(s') == Flying(s) && Begun(s') == Begun(s) + {j}
      && |s'.busy| == |s.busy| && |Begun(s')| == |Begun(s)| + 1
  {
    assert s.busy[j := true].Keys == s.busy.Keys;
  }

  lemma CloseFlies(items: seq<Item>, bad: Faults, s: Pool, j: nat)
    requires j < |items| && j in s.busy && s.busy[j] && j !in s.queue
    ensures var s' := CloseStep(items, bad, s, j);
      && Flying(s') == Flying(s) - {j} && Begun(s') == Begun(s) - {j}
      && |s'.busy| == |s.busy| - 1 && |Begun(s')| == |Begun(s)| - 1
  {
    var s' := CloseStep(items, bad, s, j);
    assert s'.busy == s.busy - {j} && s'.queue == s.queue;
    assert (s.busy - {j}).Keys == s.busy.Keys - {j};
    assert j !in Elements(s.queue);
    assert j in Begun(s);
    assert Begun(s') == Begun(s) - {j};
  }

  lemma WorkerAgrees(items: seq<Item>, bad: Faults, workers: nat, r: Serial, s: Pool, ev: Event)
    requires Counted(items, workers, s) && Apart(items) && Agrees(items, bad, r, s)
    requires Enabled(items, workers, s, ev) && !ev.Drive?
    ensures Agrees(items, bad, r, Step(items, bad, workers, s, ev))
  {
    match ev {
      case Take =>
        assert s.queue[0] in s.queue;
        TakeFlies(s);
      case Create(j) =>
        CreateFlies(items, s, j);
        FlyingApart(items, workers, s, j);
        CreateHides(items, bad, r.tree, s.tree, Flying(s), Begun(s), j);
      case Close(j) =>
        CloseFlies(items, bad, s, j);
        FlyingApart(items, workers, s, j);
        assert j in Flying(s);
        CloseHides(items, bad, r.tree, s.tree, Flying(s), Begun(s), j);
    }
  }

  lemma WorkerDoomed(items: seq<Item>, bad: Faults, workers: nat, r: Serial, s: Pool, ev: Event)
    requires Counted(items, workers, s) && Doomed(bad, r, s) && Enabled(items, workers, s, ev) && !ev.Drive?
    ensures Doomed(bad, r, Step(items, bad, workers, s, ev))
  {
    match ev {
      case Take =>
        assert s.queue[0] in s.queue;
        TakeFlies(s);
      case Create(j) => CreateFlies(items, s, j);
      case Close(j) =>
        CloseFlies(items, bad, s, j);
        if !s.err && j !in bad.fatal {
          var i :| i in Flying(s) && i in bad.fatal;
          assert i in Flying(s) - {j};
        }
    }
  }

  lemma DriveSkips(items: seq<Item>, bad: Faults, r: Serial, s: Pool, r': Serial, s': Pool)
    requires Valid(items, s.walk) && Agrees(items, bad, r, s) && s.walk.status.Going? && Todo(items, s.walk).SkipItem?
    requires r' == SerialStep(items, bad, r) && s' == DriveStep(items, bad, s)
    ensures Agrees(items, bad, r', s')
  {
  }

  lemma DriverAgrees(items: seq<Item>, bad: Faults, workers: nat, r: Serial, s: Pool, r': Serial, s': Pool)
    requires Counted(items, workers, s) && Agrees(items, bad, r, s) && Enabled(items, workers, s, Drive)
    requires Apart(items) && IsDir(r.tree, "") && Ready(items, r.walk, r.tree)
    requires r' == SerialStep(items, bad, r) && s' == DriveStep(items, bad, s)
    ensures Agrees(items, bad, r', s') || Doomed(bad, r', s')
  {
    var act := Todo(items, s.walk);
    if Drains(act) {
      DriveAlone(items, bad, workers, r, s, r', s');
    } else if act.WriteFile? {
      DriveSubmits(items, bad, workers, r, s, r', s');
    } else if !act.SkipItem? {
      DriveMeanwhile(items, bad, workers, r, s, r', s');
    } else {
      DriveSkips(items, bad, r, s, r', s');
    }
  }

  lemma DriveGoesOn(items: seq<Item>, bad: Faults, s: Pool)
    requires Valid(items, s.walk) && s.walk.status.Going? && !Drains(Todo(items, s.walk))
    ensures var s' := DriveStep(items, bad, s);
      s'.walk.status.Going? && s'.err == s.err && Flying(s) <= Flying(s')
  {
  }

  lemma DriverDoomed(items: seq<Item>, bad: Faults, workers: nat, r: Serial, s: Pool)
    requires Counted(items, workers, s) && Doomed(bad, r, s) && Enabled(items, workers, s, Drive)
    requires Valid(items, r.walk)
    ensures Doomed(bad, SerialStep(items, bad, r), DriveStep(items, bad, s))
  {
    if Drains(Todo(items, s.walk)) {
      NothingFlies(items, workers, s);
    } else {
      DriveGoesOn(items, bad, s);
    }
  }

  // ---------------------------------------------------------------- runs

  ghost predicate Run(items: seq<Item>, bad: Faults, workers: nat, s: Pool, evs: seq<Event>)
    requires Valid(items, s.walk)
    decreases |evs|
  {
    evs == [] || (Enabled(items, workers, s, evs[0]) && Run(items, bad, workers, Step(items, bad, workers, s, evs[0]), evs[1..]))
  }

  ghost function After(items: seq<Item>, bad: Faults, workers: nat, s: Pool, evs: seq<Event>): (s': Pool)
    requires Valid(items, s.walk) && Run(items, bad, workers, s, evs)
    ensures Valid(items, s'.walk)
    decreases |evs|
  {
    if evs == [] then s else After(items, bad, workers, Step(items, bad, workers, s, evs[0]), evs[1..])
  }

  lemma {:induction false} RunCounted(items: seq<Item>, bad: Faults, workers: nat, s: Pool, evs: seq<Event>)
    requires Counted(items, workers, s) && Run(items, bad, workers, s, evs)
    ensures Counted(items, workers, After(items, bad, workers, s, evs))
    decreases |evs|
  {
    if evs != [] {
      CountedStep(items, bad, workers, s, evs[0]);
      RunCounted(items, bad, workers, Step(items, bad, workers, s, evs[0]), evs[1..]);
    }
  }

  /** In every run, failing writes or not: whenever attributes are applied or a link is
      made no job is waiting or with a worker, and the stack is a chain of ancestors. */
  lemma DrainIsABarrier(items: seq<Item>, bad: Faults, workers: nat, t: Tree, evs: seq<Event>)
    requires Run(items, bad, workers, NewPool(t), evs)
    ensures var s := After(items, bad, workers, NewPool(t), evs);
      && Nested(items, s.walk)
      && (Enabled(items, workers, s, Drive) && Drains(Todo(items, s.walk)) ==> s.queue == [] && s.busy == map[])
  {
    RunCounted(items, bad, workers, NewPool(t), evs);
    var s := After(items, bad, workers, NewPool(t), evs);
    if s.inflight == 0 {
      NothingFlies(items, workers, s);
    }
  }

  /** Steps still to be taken. */
  function Remaining(items: seq<Item>, s: Pool): int
    requires Valid(items, s.walk)
  {
    4 * Left(items, s.walk) + 3 * |s.queue| + 2 * |s.busy| - |Begun(s)|
  }

  /** No run is stuck before it is over, and none goes on forever. */
  lemma Progress(items: seq<Item>, bad: Faults, workers: nat, s: Pool)
    requires 0 < workers && Counted(items, workers, s)
    requires s.walk.status.Going? || Flying(s) != {}
    ensures exists ev :: Enabled(items, workers, s, ev)
  {
    if s.busy != map[] {
      var j :| j in s.busy;
      if s.busy[j] {
        assert Enabled(items, workers, s, Close(j));
      } else {
        assert Enabled(items, workers, s, Create(j));
      }
    } else if s.queue != [] {
      assert Enabled(items, workers, s, Take);
    } else {
      assert s.walk.status.Going?;
      assert Enabled(items, workers, s, Drive);
    }
  }

  lemma DriveShrinks(items: seq<Item>, bad: Faults, s: Pool)
    requires Valid(items, s.walk) && s.walk.status.Going?
    ensures var s' := DriveStep(items, bad, s);
      && Left(items, s'.walk) < Left(items, s.walk) && s'.busy == s.busy && |s'.queue| <= |s.queue| + 1
  {
  }

  lemma Shrinks(items: seq<Item>, bad: Faults, workers: nat, s: Pool, ev: Event)
    requires Counted(items, workers, s) && Enabled(items, workers, s, ev)
    ensures 0 <= Remaining(items, Step(items, bad, workers, s, ev)) < Remaining(items, s)
  {
    var s' := Step(items, bad, workers, s, ev);
    BegunAreBusy(s');
    match ev {
      case Drive => DriveShrinks(items, bad, s);
      case Take =>
        assert s.queue[0] in s.queue;
        TakeFlies(s);
      case Create(j) => CreateFlies(items, s, j);
      case Close(j) => CloseFlies(items, bad, s, j);
    }
  }

  lemma BegunAreBusy(s: Pool)
    ensures |Begun(s)| <= |s.busy|
  {
    SubsetIsSmaller(Begun(s), s.busy.Keys);
  }

  lemma {:induction false} SubsetIsSmaller(a: set<nat>, b: set<nat>)
    requires a <= b
    ensures |a| <= |b|
  {
    if a != {} {
      var x :| x in a;
      SubsetIsSmaller(a - {x}, b - {x});
    }
  }

  lemma {:induction false} RunRelated(items: seq<Item>, bad: Faults, workers: nat, r: Serial, s: Pool, evs: seq<Event>)
      returns (r': Serial)
    requires Counted(items, workers, s) && Related(items, bad, r, s) && Run(items, bad, workers, s, evs)
    ensures SerialInv(items, bad, r') && Serially(items, bad, r') == Serially(items, bad, r)
    ensures Related(items, bad, r', After(items, bad, workers, s, evs))
    decreases |evs|
  {
    r' := r;
    if evs != [] {
      CountedStep(items, bad, workers, s, evs[0]);
      if evs[0].Drive? {
        SerialStepKeeps(items, bad, r);
        r' := SerialStep(items, bad, r);
        if Agrees(items, bad, r, s) {
          DriverAgrees(items, bad, workers, r, s, r', DriveStep(items, bad, s));
        } else {
          DriverDoomed(items, bad, workers, r, s);
        }
      } else {
        if Agrees(items, bad, r, s) {
          WorkerAgrees(items, bad, workers, r, s, evs[0]);
        } else {
          WorkerDoomed(items, bad, workers, r, s, evs[0]);
        }
      }
      r' := RunRelated(items, bad, workers, r', Step(items, bad, workers, s, evs[0]), evs[1..]);
    }
  }

  lemma PoolStart(items: seq<Item>, bad: Faults, workers: nat, t: Tree)
    ensures Counted(items, workers, NewPool(t)) && Agrees(items, bad, Start(t), NewPool(t))
  {
    NothingFlies(items, workers, NewPool(t));
    NoneHidden(items, bad, t, t);
  }

  /** However its workers are scheduled, an extraction with the pool that is over ends as
      one goroutine ends that remembers files as early. */
  lemma EndsAsSerial(items: seq<Item>, bad: Faults, workers: nat, t: Tree, evs: seq<Event>)
    requires Sane(items, t) && Run(items, bad, workers, NewPool(t), evs)
    requires !After(items, bad, workers, NewPool(t), evs).walk.status.Going?
    ensures var s, end := After(items, bad, workers, NewPool(t), evs), Serially(items, bad, Start(t));
      && (s.walk.status.Failed? <==> end.walk.status.Failed?)
      && (s.walk.status.Finished? ==> s.tree == end.tree && s.walk == end.walk && Flying(s) == {})
  {
    SerialStart(items, bad, t);
    PoolStart(items, bad, workers, t);
    var r := RunRelated(items, bad, workers, Start(t), NewPool(t), evs);
    RunCounted(items, bad, workers, NewPool(t), evs);
    var s := After(items, bad, workers, NewPool(t), evs);
    NothingFlies(items, workers, s);
    NoneHidden(items, bad, r.tree, s.tree);
  }

  /** Against the serial extraction, which remembers a file once it is written: without a
      torn file that is followed by a member of its hard link group the two fail alike and
      leave the same tree; with one, the trees differ if both end well. The remembered links
      and the counters are the same exactly when no file is torn. */
  lemma PoolIsSerial(items: seq<Item>, bad: Faults, workers: nat, t: Tree, evs: seq<Event>)
    requires Sane(items, t) && Run(items, Early(bad), workers, NewPool(t), evs)
    requires !After(items, Early(bad), workers, NewPool(t), evs).walk.status.Going?
    ensures var s, end := After(items, Early(bad), workers, NewPool(t), evs), Serially(items, Late(bad), Start(t));
      && (s.walk.status.Failed? ==> end.walk.status.Failed?)
      && (!Inherited(items, bad) ==> s.walk.status == end.walk.status)
      && (s.walk.status.Finished? && end.walk.status.Finished? ==>
           && (s.tree == end.tree <==> !Inherited(items, bad))
           && (s.tree == end.tree && s.walk == end.walk <==> !AnyTorn(items, bad)))
  {
    var s, end := After(items, Early(bad), workers, NewPool(t), evs), Serially(items, Late(bad), Start(t));
    EndsAsSerial(items, Early(bad), workers, t, evs);
    FailAlike(items, bad, t);
    if s.walk.status.Finished? && end.walk.status.Finished? {
      SameTreeIff(items, bad, t);
      SameEndIff(items, bad, t);
    }
  }

  /** Two members of one group, the write of the first failing and dismissed: with the pool
      the second is a link to the broken file, without it a whole file of its own. */
  lemma PoolLinksToBroken(workers: nat, evs: seq<Event>)
    requires Run(PAIR, Early(FIRST_TORN), workers, NewPool(EMPTY), evs)
    requires !After(PAIR, Early(FIRST_TORN), workers, NewPool(EMPTY), evs).walk.status.Going?
    ensures var s := After(PAIR, Early(FIRST_TORN), workers, NewPool(EMPTY), evs);
      var end := Serially(PAIR, Late(FIRST_TORN), Start(EMPTY));
      && s.walk.status.Finished? && "b" in s.tree && s.tree["b"] == Leaf(PAIR[0], false)
      && end.walk.status.Finished? && "b" in end.tree && end.tree["b"] == Leaf(PAIR[1], true)
  {
    PairIsSane();
    EndsAsSerial(PAIR, Early(FIRST_TORN), workers, EMPTY, evs);
    BrokenOrWhole(Serially(PAIR, Early(FIRST_TORN), Start(EMPTY)), Serially(PAIR, Late(FIRST_TORN), Start(EMPTY)));
  }

  lemma {:induction false} RunShrinks(items: seq<Item>, bad: Faults, workers: nat, s: Pool, evs: seq<Event>)
    requires Counted(items, workers, s) && Run(items, bad, workers, s, evs)
    ensures |evs| <= Remaining(items, s)
    decreases |evs|
  {
    if evs != [] {
      Shrinks(items, bad, workers, s, evs[0]);
      CountedStep(items, bad, workers, s, evs[0]);
      RunShrinks(items, bad, workers, Step(items, bad, workers, s, evs[0]), evs[1..]);
    } else {
      BegunAreBusy(s);
    }
  }

  /** No run is longer than eight steps an item and four more, and one in which nothing
      can go on any more is over, with no job left behind. */
  lemma RunsEnd(items: seq<Item>, bad: Faults, workers: nat, t: Tree, evs: seq<Event>)
    requires 0 < workers && Run(items, bad, workers, NewPool(t), evs)
    ensures |evs| <= 8 * |items| + 4
    ensures var s := After(items, bad, workers, NewPool(t), evs);
      (forall ev :: !Enabled(items, workers, s, ev)) ==> !s.walk.status.Going? && Flying(s) == {}
  {
    var s := After(items, bad, workers, NewPool(t), evs);
    PoolStart(items, bad, workers, t);
    RunShrinks(items, bad, workers, NewPool(t), evs);
    RunCounted(items, bad, workers, NewPool(t), evs);
    if s.walk.status.Going? || Flying(s) != {} {
      Progress(items, bad, workers, s);
    }
  }

  /** So a run with the pool that ends well leaves every leaf in place, whole unless the
      write of its file failed, the members of a hard link group as the inode of the first,
      and in tree order every directory but "." with its archived attributes. */
  lemma PoolRestores(items: seq<Item>, bad: Faults, workers: nat, t: Tree, evs: seq<Event>)
    requires Sane(items, t) && Run(items, bad, workers, NewPool(t), evs)
    requires After(items, bad, workers, NewPool(t), evs).walk.status.Finished?
    ensures InPlace(items, bad, After(items, bad, workers, NewPool(t), evs).tree)
  {
    EndsAsSerial(items, bad, workers, t, evs);
    Restored(items, bad, t);
  }
}

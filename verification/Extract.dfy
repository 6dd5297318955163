/** Restoring an archive into a directory. A directory is made when it is met and gets its
    attributes once the walk has left it; this module has the steps of one goroutine, and
    what the tree looks like in the end. */
module Extract {
  import opened Bytes

  type Path = string
  type Attrs = nat

  datatype Kind = Directory | Regular | Special

  /** An item under its stripped path. A hard link group has an id; its members share an inode. */
  datatype Item = Item(path: Path, kind: Kind, hlid: Option<nat>, attrs: Attrs)

  /** A directory carries the attributes last applied, or None once an entry was made or
      removed in it since: that changes its mtime. A leaf is the inode an item made. */
  datatype Node = Dir(stamp: Option<Attrs>) | Leaf(of: Item, whole: bool)

  type Tree = map<Path, Node>

  /** The regular files whose write fails, by index. The caller's error handler ends the
      extraction for some of them and dismisses the others. `early`: a file is remembered
      and counted when its write is handed to a pool, and not once it has succeeded. */
  datatype Faults = Faults(fatal: set<nat>, dismissed: set<nat>, early: bool)

  // ---------------------------------------------------------------- paths

  /** The test of finishDirs. */
  predicate Inside(p: Path, d: Path) {
    d + "/" <= p
  }

  /** Where a path is on disk, relative to the destination: "." is the destination itself. */
  function Loc(p: Path): Path {
    if p == "." then "" else p
  }

  /** The directory of a path; "" is the destination. */
  function Parent(p: Path): (d: Path)
    ensures p != "" ==> |d| < |p|
    ensures d != "" ==> Inside(p, d)
  {
    if p == "" then ""
    else if p[|p| - 1] == '/' then
      assert p[..|p| - 1] + "/" == p;
      p[..|p| - 1]
    else
      Parent(p[..|p| - 1])
  }

  lemma InsideTrans(p: Path, d: Path, e: Path)
    requires Inside(p, d) && Inside(d, e)
    ensures Inside(p, e)
  {
    assert (d + "/")[..|e + "/"|] == d[..|e + "/"|];
  }

  // ---------------------------------------------------------------- the file system

  /** The directory above p is changed. */
  function Touch(t: Tree, p: Path): Tree {
    if Parent(p) in t && t[Parent(p)].Dir? then t[Parent(p) := Dir(None)] else t
  }

  /** A new entry at p. */
  function Enter(t: Tree, p: Path, node: Node): Tree {
    Touch(t, p)[p := node]
  }

  /** The directories above p that are missing. */
  function MakeParents(t: Tree, p: Path): Tree
    decreases |p|
  {
    if p == "" || Parent(p) in t then t else Enter(MakeParents(t, Parent(p)), Parent(p), Dir(None))
  }

  /** What is already at p goes, unless it is a directory. */
  function Clear(t: Tree, p: Path): Tree {
    if p in t && t[p].Leaf? then Touch(t, p) - {p} else t
  }

  /** Before an item is made: its place is free and its parents exist. */
  function Prepare(t: Tree, p: Path): Tree {
    MakeParents(Clear(t, p), p)
  }

  function MakeDir(t: Tree, p: Path): Tree {
    if p in t then t else Enter(t, p, Dir(None))
  }

  function Stamp(t: Tree, p: Path, attrs: Attrs): Tree {
    if p in t && t[p].Dir? then t[p := Dir(Some(attrs))] else t
  }

  function Link(t: Tree, target: Path, p: Path): Tree {
    if target in t then Enter(t, p, t[target]) else t
  }

  // ---------------------------------------------------------------- one goroutine's steps

  datatype Stats = Stats(dirs: nat, files: nat, links: nat, others: nat, unmatched: nat)

  datatype Status = Going | Failed | Finished

  /** The goroutine driving the item stream: the next item, the directories whose attributes
      are still due, innermost last, and where each hard link group was extracted first.
      Items are named by their index. */
  datatype Walk = Walk(next: nat, pending: seq<nat>, links: map<nat, Path>, stats: Stats, status: Status)

  datatype Act = SkipItem | StampTop | PushDir | LinkTo(target: Path) | WriteFile | MakeSpecial | Finish

  predicate Valid(items: seq<Item>, w: Walk) {
    w.next <= |items| && forall i :: 0 <= i < |w.pending| ==> w.pending[i] < w.next
  }

  function Top(w: Walk): nat
    requires w.pending != []
  {
    w.pending[|w.pending| - 1]
  }

  /** What comes next. */
  function Todo(items: seq<Item>, w: Walk): Act
    requires Valid(items, w)
  {
    if w.next == |items| then
      if w.pending != [] then StampTop else Finish
    else
      var it := items[w.next];
      if it.path == "" then SkipItem
      else if w.pending != [] && !Inside(it.path, items[Top(w)].path) then StampTop
      else if it.kind.Directory? then PushDir
      else if it.hlid.Some? && it.hlid.value in w.links then LinkTo(w.links[it.hlid.value])
      else if it.kind.Regular? then WriteFile
      else MakeSpecial
  }

  /** The inode item i makes. A failing write leaves behind the file it has opened. */
  function Made(items: seq<Item>, bad: Faults, i: nat): Node
    requires i < |items|
  {
    Leaf(items[i], items[i].kind.Regular? ==> i !in bad.fatal && i !in bad.dismissed)
  }

  /** Whether item i, once extracted, is remembered for later members of its group. */
  predicate Kept(items: seq<Item>, bad: Faults, i: nat)
    requires i < |items|
  {
    bad.early || !items[i].kind.Regular? || i !in bad.dismissed
  }

  function Remember(links: map<nat, Path>, it: Item): map<nat, Path> {
    if it.hlid.Some? then links[it.hlid.value := Loc(it.path)] else links
  }

  /** The bookkeeping of the next act. */
  function Ahead(items: seq<Item>, bad: Faults, w: Walk): (w': Walk)
    requires Valid(items, w)
    ensures Valid(items, w')
  {
    var st := w.stats;
    match Todo(items, w)
    case SkipItem => w.(next := w.next + 1, stats := st.(unmatched := st.unmatched + 1))
    case StampTop => w.(pending := w.pending[..|w.pending| - 1])
    case PushDir => w.(next := w.next + 1, pending := w.pending + [w.next], stats := st.(dirs := st.dirs + 1))
    case LinkTo(_) => w.(next := w.next + 1, stats := st.(links := st.links + 1))
    case WriteFile =>
      if !Kept(items, bad, w.next) then w.(next := w.next + 1)
      else w.(next := w.next + 1, links := Remember(w.links, items[w.next]), stats := st.(files := st.files + 1))
    case MakeSpecial =>
      w.(next := w.next + 1, links := Remember(w.links, items[w.next]), stats := st.(others := st.others + 1))
    case Finish => w.(status := Finished)
  }

  /** Its effect on the tree. */
  function Effect(items: seq<Item>, bad: Faults, w: Walk, t: Tree): Tree
    requires Valid(items, w)
  {
    match Todo(items, w)
    case SkipItem => t
    case StampTop => Stamp(t, Loc(items[Top(w)].path), items[Top(w)].attrs)
    case PushDir => var p := Loc(items[w.next].path); MakeDir(Prepare(t, p), p)
    case LinkTo(target) => var p := Loc(items[w.next].path); Link(Prepare(t, p), target, p)
    case WriteFile => var p := Loc(items[w.next].path); Enter(Prepare(t, p), p, Made(items, bad, w.next))
    case MakeSpecial => var p := Loc(items[w.next].path); Enter(Prepare(t, p), p, Made(items, bad, w.next))
    case Finish => t
  }

  datatype Serial = Serial(walk: Walk, tree: Tree)

  /** Without a pool. */
  function SerialStep(items: seq<Item>, bad: Faults, s: Serial): (s': Serial)
    requires Valid(items, s.walk)
    ensures Valid(items, s'.walk)
  {
    if !s.walk.status.Going? then s
    else
      var fails := Todo(items, s.walk).WriteFile? && s.walk.next in bad.fatal;
      Serial(if fails then s.walk.(status := Failed) else Ahead(items, bad, s.walk), Effect(items, bad, s.walk, s.tree))
  }

  function Left(items: seq<Item>, w: Walk): nat
    requires Valid(items, w)
  {
    if w.status.Going? then 2 * (|items| - w.next) + |w.pending| + 1 else 0
  }

  function Serially(items: seq<Item>, bad: Faults, s: Serial): (end: Serial)
    requires Valid(items, s.walk)
    ensures !end.walk.status.Going?
    decreases Left(items, s.walk)
  {
    if !s.walk.status.Going? then s else Serially(items, bad, SerialStep(items, bad, s))
  }

  function Start(t: Tree): Serial {
    Serial(Walk(0, [], map[], Stats(0, 0, 0, 0, 0), Going), t)
  }

  // ---------------------------------------------------------------- the stack

  /** Each directory on the stack is inside the one below it. */
  predicate Nested(items: seq<Item>, w: Walk)
    requires Valid(items, w)
  {
    forall i :: 0 < i < |w.pending| ==> Inside(items[w.pending[i]].path, items[w.pending[i - 1]].path)
  }

  lemma NestedAhead(items: seq<Item>, bad: Faults, w: Walk)
    requires Valid(items, w) && Nested(items, w)
    ensures Nested(items, Ahead(items, bad, w))
  {
  }

  lemma {:induction false} Chained(items: seq<Item>, w: Walk, i: nat, j: nat)
    requires Valid(items, w) && Nested(items, w) && i < j < |w.pending|
    ensures Inside(items[w.pending[j]].path, items[w.pending[i]].path)
    decreases j - i
  {
    if i + 1 < j {
      Chained(items, w, i, j - 1);
      InsideTrans(items[w.pending[j]].path, items[w.pending[j - 1]].path, items[w.pending[i]].path);
    }
  }

  /** The serial extraction k steps later. */
  function Later(items: seq<Item>, bad: Faults, s: Serial, k: nat): (s': Serial)
    requires Valid(items, s.walk)
    ensures Valid(items, s'.walk)
    decreases k
  {
    if k == 0 then s else Later(items, bad, SerialStep(items, bad, s), k - 1)
  }

  lemma {:induction false} NestedLater(items: seq<Item>, bad: Faults, s: Serial, k: nat)
    requires Valid(items, s.walk) && Nested(items, s.walk)
    ensures Nested(items, Later(items, bad, s, k).walk)
    decreases k
  {
    if k > 0 {
      NestedAhead(items, bad, s.walk);
      NestedLater(items, bad, SerialStep(items, bad, s), k - 1);
    }
  }

  /** At every moment of an extraction the stack is a chain of strict ancestors, whatever
      the items, their order and the writes that fail. */
  lemma ChainOfAncestors(items: seq<Item>, bad: Faults, t: Tree, k: nat, i: nat, j: nat)
    requires i < j < |Later(items, bad, Start(t), k).walk.pending|
    ensures var w := Later(items, bad, Start(t), k).walk;
      Inside(items[w.pending[j]].path, items[w.pending[i]].path)
  {
    NestedLater(items, bad, Start(t), k);
    Chained(items, Later(items, bad, Start(t), k).walk, i, j);
  }

  // ---------------------------------------------------------------- what an act leaves alone

  /** Making the parents of p, or an entry at p, changes no leaf and no directory that p
      is not inside. */
  predicate Spared(t: Tree, p: Path, q: Path) {
    q in t && q != p && (t[q].Leaf? || (q != "" && !Inside(p, q)))
  }

  lemma EnterSpares(t: Tree, p: Path, node: Node, q: Path)
    requires Spared(t, p, q)
    ensures q in Enter(t, p, node) && Enter(t, p, node)[q] == t[q]
  {
  }

  lemma {:induction false} ParentsSpare(t: Tree, p: Path, q: Path)
    requires Spared(t, p, q)
    ensures q in MakeParents(t, p) && MakeParents(t, p)[q] == t[q]
    decreases |p|
  {
    var d := Parent(p);
    if p != "" && d !in t {
      if d != "" && Inside(d, q) {
        InsideTrans(p, d, q);
      }
      ParentsSpare(t, d, q);
      EnterSpares(MakeParents(t, d), d, Dir(None), q);
    }
  }

  lemma PrepareSpares(t: Tree, p: Path, q: Path)
    requires Spared(t, p, q)
    ensures q in Prepare(t, p) && Prepare(t, p)[q] == t[q]
  {
    ParentsSpare(Clear(t, p), p, q);
  }

  /** The parents are there afterwards, and directories stay directories. */
  lemma {:induction false} ParentsMade(t: Tree, p: Path, q: Path)
    requires q in t
    ensures q in MakeParents(t, p) && (MakeParents(t, p)[q].Dir? <==> t[q].Dir?)
    ensures p != "" ==> Parent(p) in MakeParents(t, p)
    ensures p !in t ==> p !in MakeParents(t, p)
    decreases |p|
  {
    if p != "" && Parent(p) !in t {
      ParentsMade(t, Parent(p), q);
      if p !in t {
        NotMade(t, Parent(p), p);
      }
    }
  }

  /** Only paths shorter than p are made. */
  lemma {:induction false} NotMade(t: Tree, p: Path, q: Path)
    requires |p| <= |q| && q !in t
    ensures q !in MakeParents(t, p)
    decreases |p|
  {
    if p != "" && Parent(p) !in t {
      NotMade(t, Parent(p), q);
    }
  }

  // ---------------------------------------------------------------- what the items may be

  predicate Named(it: Item) {
    it.path != ""
  }

  predicate Leafy(it: Item) {
    Named(it) && !it.kind.Directory?
  }

  /** A non-directory has its path to itself and nothing is inside it. */
  ghost predicate Apart(items: seq<Item>) {
    && (forall i :: 0 <= i < |items| && Leafy(items[i]) ==> Loc(items[i].path) != "")
    && (forall i, j :: 0 <= i < |items| && 0 <= j < |items| && i != j && Leafy(items[i]) && Named(items[j]) ==>
         Loc(items[i].path) != Loc(items[j].path) && !Inside(Loc(items[j].path), Loc(items[i].path)))
  }

  /** On disk no directory is where a leaf belongs, and nothing but directories above an item. */
  ghost predicate Open(it: Item, t: Tree) {
    var p := Loc(it.path);
    && (Leafy(it) && p in t ==> t[p].Leaf?)
    && (forall q :: q in t && Inside(p, q) ==> t[q].Dir?)
  }

  /** No directory twice, and the items inside one directly behind it, as a walk of a
      file tree yields them. */
  ghost predicate TreeOrdered(items: seq<Item>) {
    && (forall i, j :: 0 <= i < j < |items| && items[i].kind.Directory? && items[j].kind.Directory? && Named(items[i]) ==>
         items[i].path != items[j].path)
    && (forall i, j, k :: 0 <= i < j < k < |items| && items[i].kind.Directory? && Named(items[j]) ==>
         Inside(items[k].path, items[i].path) ==> Inside(items[j].path, items[i].path))
  }

  predicate Member(items: seq<Item>, bad: Faults, h: nat, i: nat)
    requires i < |items|
  {
    Leafy(items[i]) && items[i].hlid == Some(h) && Kept(items, bad, i)
  }

  /** The first of the first n items that is remembered for a hard link group; n if none is. */
  function First(items: seq<Item>, bad: Faults, h: nat, n: nat): (m: nat)
    requires n <= |items|
    ensures m <= n
    ensures m < n ==> Member(items, bad, h, m)
    ensures forall j :: 0 <= j < m ==> !Member(items, bad, h, j)
  {
    if n == 0 then 0
    else
      var m := First(items, bad, h, n - 1);
      if m < n - 1 then m else if Member(items, bad, h, n - 1) then n - 1 else n
  }

  /** The item whose inode item i ends up as. */
  function Origin(items: seq<Item>, bad: Faults, i: nat): (o: nat)
    requires i < |items|
    ensures o <= i
  {
    if items[i].hlid.Some? then First(items, bad, items[i].hlid.value, i) else i
  }

  lemma OriginOfFirst(items: seq<Item>, bad: Faults, h: nat, n: nat)
    requires n <= |items| && First(items, bad, h, n) < n
    ensures Origin(items, bad, First(items, bad, h, n)) == First(items, bad, h, n)
  {
    var m := First(items, bad, h, n);
    assert First(items, bad, h, m) == m;
  }

  // ---------------------------------------------------------------- leaves

  ghost predicate LeavesDone(items: seq<Item>, bad: Faults, w: Walk, t: Tree)
    requires Valid(items, w)
  {
    forall i :: 0 <= i < w.next && Leafy(items[i]) ==>
      Loc(items[i].path) in t && t[Loc(items[i].path)] == Made(items, bad, Origin(items, bad, i))
  }

  ghost predicate LinkKnown(items: seq<Item>, bad: Faults, w: Walk, h: nat)
    requires Valid(items, w)
  {
    var m := First(items, bad, h, w.next);
    (h in w.links <==> m < w.next) && (m < w.next ==> w.links[h] == Loc(items[m].path))
  }

  ghost predicate LinksKnown(items: seq<Item>, bad: Faults, w: Walk)
    requires Valid(items, w)
  {
    forall h: nat :: LinkKnown(items, bad, w, h)
  }

  lemma LinkKnownAhead(items: seq<Item>, bad: Faults, w: Walk, h: nat)
    requires Valid(items, w) && LinkKnown(items, bad, w, h)
    ensures LinkKnown(items, bad, Ahead(items, bad, w), h)
  {
    var w' := Ahead(items, bad, w);
    if w'.next == w.next + 1 {
      var m := First(items, bad, h, w.next);
      assert First(items, bad, h, w'.next) ==
             if m < w.next then m else if Member(items, bad, h, w.next) then w.next else w'.next;
    } else {
      assert w'.next == w.next;
    }
  }

  lemma LeafStays(items: seq<Item>, bad: Faults, w: Walk, t: Tree, q: Path)
    requires Valid(items, w) && q in t && t[q].Leaf?
    requires Ahead(items, bad, w).next == w.next + 1 && Named(items[w.next]) ==> q != Loc(items[w.next].path)
    ensures q in Effect(items, bad, w, t) && Effect(items, bad, w, t)[q] == t[q]
  {
    var act := Todo(items, w);
    if !act.SkipItem? && !act.StampTop? && !act.Finish? {
      PrepareSpares(t, Loc(items[w.next].path), q);
    }
  }

  /** The item just made. */
  lemma LeafMade(items: seq<Item>, bad: Faults, w: Walk, t: Tree)
    requires Valid(items, w) && w.next < |items| && Leafy(items[w.next]) && Ahead(items, bad, w).next == w.next + 1
    requires Apart(items) && LeavesDone(items, bad, w, t) && LinksKnown(items, bad, w)
    ensures var p, t' := Loc(items[w.next].path), Effect(items, bad, w, t);
      p in t' && t'[p] == Made(items, bad, Origin(items, bad, w.next))
  {
    var it := items[w.next];
    if it.hlid.Some? {
      var h := it.hlid.value;
      var m := First(items, bad, h, w.next);
      assert LinkKnown(items, bad, w, h);
      if m < w.next {
        OriginOfFirst(items, bad, h, w.next);
        PrepareSpares(t, Loc(it.path), Loc(items[m].path));
      }
    }
  }

  lemma LeavesDoneAhead(items: seq<Item>, bad: Faults, w: Walk, t: Tree)
    requires Valid(items, w) && Apart(items) && LeavesDone(items, bad, w, t) && LinksKnown(items, bad, w)
    ensures LeavesDone(items, bad, Ahead(items, bad, w), Effect(items, bad, w, t))
  {
    var w', t' := Ahead(items, bad, w), Effect(items, bad, w, t);
    forall i | 0 <= i < w'.next && Leafy(items[i])
      ensures Loc(items[i].path) in t' && t'[Loc(items[i].path)] == Made(items, bad, Origin(items, bad, i))
    {
      if i < w.next {
        LeafStays(items, bad, w, t, Loc(items[i].path));
      } else {
        LeafMade(items, bad, w, t);
      }
    }
  }

  // ---------------------------------------------------------------- directories

  /** What is still to come finds its place free. */
  ghost predicate Ready(items: seq<Item>, w: Walk, t: Tree)
    requires Valid(items, w)
  {
    forall j :: w.next <= j < |items| && Named(items[j]) ==> Open(items[j], t)
  }

  ghost predicate IsDir(t: Tree, p: Path) {
    p in t && t[p].Dir?
  }

  ghost predicate DirsThere(items: seq<Item>, w: Walk, t: Tree)
    requires Valid(items, w)
  {
    && IsDir(t, "")
    && forall i :: 0 <= i < w.next && Named(items[i]) && items[i].kind.Directory? ==> IsDir(t, Loc(items[i].path))
  }

  /** A directory stays one unless a leaf takes its place. */
  lemma DirStays(items: seq<Item>, bad: Faults, w: Walk, t: Tree, q: Path)
    requires Valid(items, w) && IsDir(t, q)
    requires Ahead(items, bad, w).next == w.next + 1 && Leafy(items[w.next]) ==> q != Loc(items[w.next].path)
    ensures IsDir(Effect(items, bad, w, t), q)
  {
    var act := Todo(items, w);
    if !act.SkipItem? && !act.StampTop? && !act.Finish? {
      ParentsMade(Clear(t, Loc(items[w.next].path)), Loc(items[w.next].path), q);
    }
  }

  lemma DirMade(items: seq<Item>, bad: Faults, w: Walk, t: Tree)
    requires Valid(items, w) && Todo(items, w).PushDir?
    ensures IsDir(Effect(items, bad, w, t), Loc(items[w.next].path))
  {
    var q := Loc(items[w.next].path);
    if q in t && t[q].Dir? {
      DirStays(items, bad, w, t, q);
    } else {
      NotMade(Clear(t, q), q, q);
    }
  }

  lemma DirsThereAhead(items: seq<Item>, bad: Faults, w: Walk, t: Tree)
    requires Valid(items, w) && Apart(items) && DirsThere(items, w, t)
    ensures DirsThere(items, Ahead(items, bad, w), Effect(items, bad, w, t))
  {
    var w', t' := Ahead(items, bad, w), Effect(items, bad, w, t);
    DirStays(items, bad, w, t, "");
    forall i | 0 <= i < w'.next && Named(items[i]) && items[i].kind.Directory?
      ensures IsDir(t', Loc(items[i].path))
    {
      if i < w.next {
        DirStays(items, bad, w, t, Loc(items[i].path));
      } else {
        DirMade(items, bad, w, t);
      }
    }
  }

  /** The parents made for p are directories p is inside. */
  lemma {:induction false} MadeAbove(t: Tree, p: Path, q: Path)
    requires "" in t && q in MakeParents(t, p) && q !in t
    ensures MakeParents(t, p)[q].Dir? && Inside(p, q)
    decreases |p|
  {
    var d := Parent(p);
    if q in MakeParents(t, d) {
      MadeAbove(t, d, q);
      InsideTrans(p, d, q);
    }
  }

  /** Nothing but the item itself and directories above it is new. */
  lemma NewEntries(items: seq<Item>, bad: Faults, w: Walk, t: Tree, q: Path)
    requires Valid(items, w) && IsDir(t, "") && q in Effect(items, bad, w, t) && q !in t
    ensures w.next < |items| && Named(items[w.next]) && Ahead(items, bad, w).next == w.next + 1
    ensures q != Loc(items[w.next].path) ==> Inside(Loc(items[w.next].path), q) && Effect(items, bad, w, t)[q].Dir?
  {
    var p := Loc(items[w.next].path);
    if q != p {
      MadeAbove(Clear(t, p), p, q);
    }
  }

  lemma OpenStays(items: seq<Item>, bad: Faults, w: Walk, t: Tree, j: nat)
    requires Valid(items, w) && Apart(items) && IsDir(t, "") && j < |items| && Named(items[j])
    requires Ahead(items, bad, w).next <= j && Open(items[j], t)
    ensures Open(items[j], Effect(items, bad, w, t))
  {
    var t', p := Effect(items, bad, w, t), Loc(items[j].path);
    if Leafy(items[j]) && p in t' {
      if p in t {
        LeafStays(items, bad, w, t, p);
      } else {
        NewEntries(items, bad, w, t, p);
      }
    }
    forall q | q in t' && Inside(p, q)
      ensures t'[q].Dir?
    {
      if q in t {
        DirStays(items, bad, w, t, q);
      } else {
        NewEntries(items, bad, w, t, q);
        if q == Loc(items[w.next].path) {
          assert !Leafy(items[w.next]);
          DirMade(items, bad, w, t);
        }
      }
    }
  }

  lemma ReadyAhead(items: seq<Item>, bad: Faults, w: Walk, t: Tree)
    requires Valid(items, w) && Apart(items) && IsDir(t, "") && Ready(items, w, t)
    ensures Ready(items, Ahead(items, bad, w), Effect(items, bad, w, t))
  {
    forall j | Ahead(items, bad, w).next <= j < |items| && Named(items[j])
      ensures Open(items[j], Effect(items, bad, w, t))
    {
      OpenStays(items, bad, w, t, j);
    }
  }

  // ---------------------------------------------------------------- attributes of directories

  /** A directory the walk has left: nothing to come is inside it, and its attributes are on. */
  ghost predicate IsLeft(items: seq<Item>, w: Walk, t: Tree, i: nat)
    requires Valid(items, w) && i < w.next
  {
    && IsDir(t, items[i].path) && t[items[i].path].stamp == Some(items[i].attrs)
    && forall k :: w.next <= k < |items| ==> !Inside(items[k].path, items[i].path)
  }

  /** The stack holds directories in the order they were met. */
  ghost predicate StackOfDirs(items: seq<Item>, w: Walk)
    requires Valid(items, w)
  {
    && (forall i :: 0 <= i < |w.pending| ==> Named(items[w.pending[i]]) && items[w.pending[i]].kind.Directory?)
    && (forall i, j :: 0 <= i < j < |w.pending| ==> w.pending[i] < w.pending[j])
  }

  lemma StackOfDirsAhead(items: seq<Item>, bad: Faults, w: Walk)
    requires Valid(items, w) && StackOfDirs(items, w)
    ensures StackOfDirs(items, Ahead(items, bad, w))
  {
  }

  /** A directory that is done with. */
  ghost predicate Passed(items: seq<Item>, w: Walk, i: nat)
    requires Valid(items, w)
  {
    i < w.next && items[i].kind.Directory? && Named(items[i]) && i !in w.pending
  }

  lemma PassedNow(items: seq<Item>, bad: Faults, w: Walk, i: nat)
    requires Valid(items, w) && Passed(items, Ahead(items, bad, w), i)
    ensures Passed(items, w, i) || (Todo(items, w).StampTop? && i == Top(w))
  {
    var w' := Ahead(items, bad, w);
    if Todo(items, w).PushDir? {
      assert w'.pending[|w.pending|] == w.next;
    }
    forall k | 0 <= k < |w'.pending| && k < |w.pending|
      ensures w.pending[k] in w'.pending
    {
      assert w'.pending[k] == w.pending[k];
    }
  }

  /** Every directory met is on the stack or has been left. The destination itself, as an
      item of its own, is the exception. */
  ghost predicate Stamped(items: seq<Item>, w: Walk, t: Tree)
    requires Valid(items, w)
  {
    forall i: nat :: Passed(items, w, i) && items[i].path != "." ==> IsLeft(items, w, t, i)
  }

  lemma LeftStays(items: seq<Item>, bad: Faults, w: Walk, t: Tree, i: nat)
    requires Valid(items, w) && Apart(items) && TreeOrdered(items) && StackOfDirs(items, w)
    requires Passed(items, w, i) && items[i].path != "." && IsLeft(items, w, t, i)
    ensures IsLeft(items, Ahead(items, bad, w), Effect(items, bad, w, t), i)
  {
    var act, q := Todo(items, w), items[i].path;
    if act.StampTop? {
      assert Top(w) in w.pending;
      assert items[Top(w)].path != q;
    } else if !act.SkipItem? && !act.Finish? {
      var p := Loc(items[w.next].path);
      assert !Inside(items[w.next].path, q);
      assert p != q;
      PrepareSpares(t, p, q);
    }
  }

  lemma TopIsLeft(items: seq<Item>, bad: Faults, w: Walk, t: Tree)
    requires Valid(items, w) && TreeOrdered(items) && StackOfDirs(items, w) && DirsThere(items, w, t)
    requires Todo(items, w).StampTop? && items[Top(w)].path != "."
    ensures IsLeft(items, Ahead(items, bad, w), Effect(items, bad, w, t), Top(w))
  {
    var m := Top(w);
    assert IsDir(t, Loc(items[m].path));
    forall k | w.next <= k < |items|
      ensures !Inside(items[k].path, items[m].path)
    {
      assert !Inside(items[w.next].path, items[m].path);
    }
  }

  lemma StampedAhead(items: seq<Item>, bad: Faults, w: Walk, t: Tree)
    requires Valid(items, w) && Apart(items) && TreeOrdered(items) && StackOfDirs(items, w)
    requires Stamped(items, w, t) && DirsThere(items, w, t)
    ensures Stamped(items, Ahead(items, bad, w), Effect(items, bad, w, t))
  {
    var w', t' := Ahead(items, bad, w), Effect(items, bad, w, t);
    forall i: nat | Passed(items, w', i) && items[i].path != "."
      ensures IsLeft(items, w', t', i)
    {
      PassedNow(items, bad, w, i);
      if Passed(items, w, i) {
        LeftStays(items, bad, w, t, i);
      } else {
        TopIsLeft(items, bad, w, t);
      }
    }
  }

  // ---------------------------------------------------------------- the tree in the end

  ghost predicate LeafInv(items: seq<Item>, bad: Faults, w: Walk, t: Tree)
    requires Valid(items, w)
  {
    LinksKnown(items, bad, w) && LeavesDone(items, bad, w, t)
  }

  ghost predicate DirInv(items: seq<Item>, w: Walk, t: Tree)
    requires Valid(items, w)
  {
    && DirsThere(items, w, t) && Ready(items, w, t) && StackOfDirs(items, w)
    && (TreeOrdered(items) ==> Stamped(items, w, t))
  }

  ghost predicate SerialInv(items: seq<Item>, bad: Faults, s: Serial) {
    && Apart(items) && Valid(items, s.walk)
    && (!s.walk.status.Failed? ==> LeafInv(items, bad, s.walk, s.tree) && DirInv(items, s.walk, s.tree))
    && (s.walk.status.Finished? ==> s.walk.next == |items| && s.walk.pending == [])
  }

  lemma LinksKnownAhead(items: seq<Item>, bad: Faults, w: Walk)
    requires Valid(items, w) && LinksKnown(items, bad, w)
    ensures LinksKnown(items, bad, Ahead(items, bad, w))
  {
    forall h: nat
      ensures LinkKnown(items, bad, Ahead(items, bad, w), h)
    {
      LinkKnownAhead(items, bad, w, h);
    }
  }

  lemma LeafInvAhead(items: seq<Item>, bad: Faults, w: Walk, t: Tree)
    requires Apart(items) && Valid(items, w) && LeafInv(items, bad, w, t)
    ensures LeafInv(items, bad, Ahead(items, bad, w), Effect(items, bad, w, t))
  {
    LinksKnownAhead(items, bad, w);
    LeavesDoneAhead(items, bad, w, t);
  }

  lemma DirInvAhead(items: seq<Item>, bad: Faults, w: Walk, t: Tree)
    requires Apart(items) && Valid(items, w) && DirInv(items, w, t)
    ensures DirInv(items, Ahead(items, bad, w), Effect(items, bad, w, t))
  {
    DirsThereAhead(items, bad, w, t);
    ReadyAhead(items, bad, w, t);
    StackOfDirsAhead(items, bad, w);
    if TreeOrdered(items) {
      StampedAhead(items, bad, w, t);
    }
  }

  lemma InvAhead(items: seq<Item>, bad: Faults, w: Walk, t: Tree)
    requires Apart(items) && Valid(items, w) && LeafInv(items, bad, w, t) && DirInv(items, w, t) && w.status.Going?
    ensures SerialInv(items, bad, Serial(Ahead(items, bad, w), Effect(items, bad, w, t)))
  {
    LeafInvAhead(items, bad, w, t);
    DirInvAhead(items, bad, w, t);
  }

  lemma SerialStepKeeps(items: seq<Item>, bad: Faults, s: Serial)
    requires SerialInv(items, bad, s)
    ensures SerialInv(items, bad, SerialStep(items, bad, s))
  {
    if s.walk.status.Going? {
      InvAhead(items, bad, s.walk, s.tree);
    }
  }

  /** What every step keeps holds in the end. */
  lemma {:induction false} SerialInduction(items: seq<Item>, bad: Faults, s: Serial, inv: Serial -> bool)
    requires Valid(items, s.walk) && inv(s)
    requires forall s': Serial {:trigger SerialStep(items, bad, s')} :: Valid(items, s'.walk) && inv(s') ==> inv(SerialStep(items, bad, s'))
    ensures inv(Serially(items, bad, s))
    decreases Left(items, s.walk)
  {
    if s.walk.status.Going? {
      SerialInduction(items, bad, SerialStep(items, bad, s), inv);
    }
  }

  lemma SerialKeeps(items: seq<Item>, bad: Faults, s: Serial)
    requires SerialInv(items, bad, s)
    ensures SerialInv(items, bad, Serially(items, bad, s))
  {
    ghost var inv := (s': Serial) => SerialInv(items, bad, s');
    forall s': Serial | Valid(items, s'.walk) && inv(s')
      ensures inv(SerialStep(items, bad, s'))
    {
      SerialStepKeeps(items, bad, s');
    }
    SerialInduction(items, bad, s, inv);
  }

  /** The destination suits the items. */
  ghost predicate Sane(items: seq<Item>, t: Tree) {
    Apart(items) && IsDir(t, "") && forall i :: 0 <= i < |items| && Named(items[i]) ==> Open(items[i], t)
  }

  lemma SerialStart(items: seq<Item>, bad: Faults, t: Tree)
    requires Sane(items, t)
    ensures SerialInv(items, bad, Start(t))
  {
    forall h: nat
      ensures LinkKnown(items, bad, Start(t).walk, h)
    {
    }
  }

  /** Every file, link and special is where it belongs, the members of a hard link group
      as the inode of the first one remembered, files whole unless their write failed, and
      every directory is there. In tree order each directory but "." has its archived
      attributes. */
  ghost predicate InPlace(items: seq<Item>, bad: Faults, t: Tree) {
    forall i :: 0 <= i < |items| && Named(items[i]) ==>
      var p := Loc(items[i].path);
      && p in t
      && (Leafy(items[i]) ==> t[p] == Made(items, bad, Origin(items, bad, i)))
      && (items[i].kind.Directory? ==> t[p].Dir?)
      && (items[i].kind.Directory? && TreeOrdered(items) && p != "" ==> t[p] == Dir(Some(items[i].attrs)))
  }

  /** A serial extraction that ends well restores everything. */
  lemma Restored(items: seq<Item>, bad: Faults, t: Tree)
    requires Sane(items, t)
    requires Serially(items, bad, Start(t)).walk.status.Finished?
    ensures InPlace(items, bad, Serially(items, bad, Start(t)).tree)
  {
    SerialStart(items, bad, t);
    SerialKeeps(items, bad, Start(t));
    var end := Serially(items, bad, Start(t));
    forall i | 0 <= i < |items| && Named(items[i]) && items[i].kind.Directory?
      ensures IsDir(end.tree, Loc(items[i].path))
      ensures TreeOrdered(items) && Loc(items[i].path) != "" ==> end.tree[Loc(items[i].path)] == Dir(Some(items[i].attrs))
    {
      assert Passed(items, end.walk, i);
    }
  }

  // ---------------------------------------------------------------- the extractor

  /** One step of the serial extraction does not change how it ends. */
  lemma SameEnd(items: seq<Item>, bad: Faults, s: Serial, s': Serial)
    requires Valid(items, s.walk) && s.walk.status.Going? && s' == SerialStep(items, bad, s)
    ensures Serially(items, bad, s') == Serially(items, bad, s)
  {
  }

  lemma Unmatched(items: seq<Item>, bad: Faults, s: Serial)
    requires Valid(items, s.walk) && s.walk.status.Going? && s.walk.next < |items| && items[s.walk.next].path == ""
    ensures var w := s.walk;
      SerialStep(items, bad, s)
      == s.(walk := w.(next := w.next + 1, stats := w.stats.(unmatched := w.stats.unmatched + 1)))
  {
    assert Todo(items, s.walk) == SkipItem;
  }

  class Extractor {
    const items: seq<Item>
    // The files whose write will fail, to be dismissed or not.
    const bad: Faults
    var tree: Tree
    var next: nat
    var pendingDirs: seq<nat>
    var hardlinks: map<nat, Path>
    var stats: Stats
    var status: Status

    function Now(): Serial
      reads this
    {
      Serial(Walk(next, pendingDirs, hardlinks, stats, status), tree)
    }

    ghost predicate Usable()
      reads this
    {
      Valid(items, Now().walk) && !bad.early
    }

    /** How the extraction will end from here. */
    ghost function Ending(): Serial
      reads this
      requires Usable()
    {
      Serially(items, bad, Now())
    }

    constructor (items: seq<Item>, bad: Faults, t: Tree)
      requires !bad.early
      ensures Usable() && Now() == Start(t) && this.items == items && this.bad == bad
    {
      this.items, this.bad, tree := items, bad, t;
      next, pendingDirs, hardlinks := 0, [], map[];
      stats, status := Stats(0, 0, 0, 0, 0), Going;
    }

    /** All items, and then the attributes of the directories still pending. */
    method Extract() returns (ok: bool)
      requires Usable() && status.Going?
      modifies this
      ensures Usable() && Now() == old(Ending()) && (ok <==> status.Finished?)
    {
      ghost var ending := Ending();
      while next < |items|
        invariant Usable() && status.Going? && Ending() == ending
        decreases |items| - next
      {
        ok := ExtractItem();
        if !ok {
          return;
        }
      }
      FinishDirs(None);
      SameEnd(items, bad, Now(), SerialStep(items, bad, Now()));
      status := Finished;
      ok := true;
    }

    /** The directories the next item is not inside get their attributes, innermost first;
        at the end all do. */
    method FinishDirs(inside: Option<Path>)
      requires Usable() && status.Going?
      requires if inside.Some? then next < |items| && inside.value == items[next].path != "" else next == |items|
      modifies this`tree, this`pendingDirs
      ensures Usable() && Ending() == old(Ending())
      ensures pendingDirs != [] ==> inside.Some? && Inside(inside.value, items[pendingDirs[|pendingDirs| - 1]].path)
    {
      ghost var ending := Ending();
      while pendingDirs != []
        invariant Usable() && Ending() == ending
        decreases |pendingDirs|
      {
        var top := pendingDirs[|pendingDirs| - 1];
        if inside.Some? && Inside(inside.value, items[top].path) {
          break;
        }
        SameEnd(items, bad, Now(), SerialStep(items, bad, Now()));
        pendingDirs := pendingDirs[..|pendingDirs| - 1];
        tree := Stamp(tree, Loc(items[top].path), items[top].attrs);
      }
    }

    method ExtractItem() returns (ok: bool)
      requires Usable() && status.Going? && next < |items|
      modifies this
      ensures Usable() && Ending() == old(Ending())
      ensures if ok then status.Going? && next == old(next) + 1 else status.Failed?
    {
      var it := items[next];
      if it.path == "" {
        PassOver();
        return true;
      }
      FinishDirs(Some(it.path));
      SameEnd(items, bad, Now(), SerialStep(items, bad, Now()));
      ok := Place(it, Loc(it.path));
    }

    /** Nothing is left of the item's path. */
    method PassOver()
      requires Usable() && status.Going? && next < |items| && items[next].path == ""
      modifies this`stats, this`next
      ensures Usable() && Ending() == old(Ending()) && next == old(next) + 1
    {
      SameEnd(items, bad, Now(), SerialStep(items, bad, Now()));
      Unmatched(items, bad, Now());
      stats := stats.(unmatched := stats.unmatched + 1);
      next := next + 1;
    }

    /** Makes the item in the place prepared for it. */
    method Place(it: Item, path: Path) returns (ok: bool)
      requires Usable() && status.Going? && next < |items| && it == items[next] && it.path != "" && path == Loc(it.path)
      requires pendingDirs != [] ==> Inside(it.path, items[pendingDirs[|pendingDirs| - 1]].path)
      modifies this
      ensures Usable() && Now() == SerialStep(items, bad, old(Now()))
      ensures if ok then status.Going? && next == old(next) + 1 else status.Failed?
    {
      ok := true;
      if it.kind.Directory? {
        PlaceDirectory(it, path);
        return;
      }
      var linked := TryHardlink(it, path);
      if !linked {
        ok := PlaceLeaf(it, path);
      }
    }

    method PlaceDirectory(it: Item, path: Path)
      requires Usable() && next < |items| && Todo(items, Now().walk).PushDir? && it == items[next] && path == Loc(it.path)
      modifies this
      ensures Usable() && Now() == Serial(old(Ahead(items, bad, Now().walk)), old(Effect(items, bad, Now().walk, tree)))
    {
      tree := MakeDir(Prepare(tree, path), path);
      pendingDirs := pendingDirs + [next];
      stats := stats.(dirs := stats.dirs + 1);
      next := next + 1;
    }

    /** Links to an earlier member of the group, if there is one. */
    method TryHardlink(it: Item, path: Path) returns (linked: bool)
      requires Usable() && next < |items| && it == items[next] && path == Loc(it.path)
      requires Todo(items, Now().walk).LinkTo? || Todo(items, Now().walk).WriteFile? || Todo(items, Now().walk).MakeSpecial?
      modifies this
      ensures linked == old(Todo(items, Now().walk).LinkTo?)
      ensures linked ==>
        Usable() && Now() == Serial(old(Ahead(items, bad, Now().walk)), old(Effect(items, bad, Now().walk, tree)))
      ensures !linked ==> Now() == old(Now())
    {
      if it.hlid.None? || it.hlid.value !in hardlinks {
        return false;
      }
      tree := Link(Prepare(tree, path), hardlinks[it.hlid.value], path);
      stats := stats.(links := stats.links + 1);
      next := next + 1;
      return true;
    }

    method PlaceLeaf(it: Item, path: Path) returns (ok: bool)
      requires Usable() && status.Going? && next < |items| && it == items[next] && path == Loc(it.path)
      requires Todo(items, Now().walk).WriteFile? || Todo(items, Now().walk).MakeSpecial?
      modifies this
      ensures Usable() && Now() == SerialStep(items, bad, old(Now()))
      ensures if ok then status.Going? && next == old(next) + 1 else status.Failed?
    {
      tree := Enter(Prepare(tree, path), path, Made(items, bad, next));
      if it.kind.Regular? && next in bad.fatal {
        status := Failed;
        return false;
      }
      if it.kind.Regular? && next in bad.dismissed {
        next := next + 1;
        return true;
      }
      hardlinks := Remember(hardlinks, it);
      if it.kind.Regular? {
        stats := stats.(files := stats.files + 1);
      } else {
        stats := stats.(others := stats.others + 1);
      }
      next := next + 1;
      ok := true;
    }
  }

  // ---------------------------------------------------------------- which runs fail

  /** The files that are written rather than linked. */
  predicate Written(items: seq<Item>, bad: Faults, i: nat) {
    i < |items| && Named(items[i]) && items[i].kind.Regular? && Origin(items, bad, i) == i
  }

  lemma WrittenNext(items: seq<Item>, bad: Faults, w: Walk)
    requires Valid(items, w) && LinksKnown(items, bad, w)
    ensures Todo(items, w).WriteFile? ==> Written(items, bad, w.next)
    ensures Written(items, bad, w.next) ==> Todo(items, w).WriteFile? || Todo(items, w).StampTop?
  {
    if w.next < |items| && items[w.next].hlid.Some? {
      assert LinkKnown(items, bad, w, items[w.next].hlid.value);
    }
  }

  /** From item n on, a file will be written whose failing write ends the extraction. */
  ghost predicate FatalFrom(items: seq<Item>, bad: Faults, n: nat) {
    exists i: nat :: n <= i && i in bad.fatal && Written(items, bad, i)
  }

  lemma FatalNow(items: seq<Item>, bad: Faults, n: nat)
    ensures FatalFrom(items, bad, n) <==> (n in bad.fatal && Written(items, bad, n)) || FatalFrom(items, bad, n + 1)
  {
  }

  /** An extraction fails exactly when the write of a file that gets written fails and the
      failure is not dismissed. */
  lemma {:induction false} FailsIff(items: seq<Item>, bad: Faults, s: Serial)
    requires Valid(items, s.walk) && LinksKnown(items, bad, s.walk) && s.walk.status.Going?
    ensures Serially(items, bad, s).walk.status.Failed? <==> FatalFrom(items, bad, s.walk.next)
    decreases Left(items, s.walk)
  {
    var w, s' := s.walk, SerialStep(items, bad, s);
    WrittenNext(items, bad, w);
    FatalNow(items, bad, w.next);
    assert Serially(items, bad, s) == Serially(items, bad, s');
    if s'.walk.status.Going? {
      LinksKnownAhead(items, bad, w);
      FailsIff(items, bad, s');
    }
  }
}

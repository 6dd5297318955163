/** The destination archived as an item, ".": no path is inside "." by the test used for
    directories, so it is given its attributes before anything behind it is made. Whether it
    keeps them depends on what is made directly in it. */
module Destination {
  import opened Bytes
  import opened Extract

  // ---------------------------------------------------------------- the first component

  /** The part of a path that is an entry of the destination. */
  function TopLevel(p: Path): (q: Path)
    ensures p != "" ==> q != "" && Parent(q) == "" && (q == p || Inside(p, q))
    decreases |p|
  {
    if p == "" || Parent(p) == "" then p
    else
      var q := TopLevel(Parent(p));
      assert q != Parent(p) ==> Inside(p, q) by {
        if q != Parent(p) {
          InsideTrans(p, Parent(p), q);
        }
      }
      q
  }

  /** What a path is inside is its parent or above it. */
  lemma {:induction false} ParentFirst(p: Path, q: Path)
    requires Inside(p, q) && q != ""
    ensures p != "" && (Parent(p) == q || Inside(Parent(p), q))
    decreases |p|
  {
    var p' := p[..|p| - 1];
    if p[|p| - 1] == '/' {
      if |p| == |q| + 1 {
        assert p' == q;
      } else {
        assert p'[..|q| + 1] == q + "/";
      }
    } else {
      assert p[|q|] == (q + "/")[|q|] == '/';
      assert |p| > |q| + 1;
      assert p'[..|q| + 1] == q + "/";
      ParentFirst(p', q);
      ParentOfPrefix(p);
    }
  }

  lemma ParentOfPrefix(p: Path)
    requires p != "" && p[|p| - 1] != '/'
    ensures Parent(p) == Parent(p[..|p| - 1])
  {
  }

  /** The first component is the only one among the paths a path is inside. */
  lemma {:induction false} OneTopLevel(p: Path, q: Path)
    requires q != "" && Parent(q) == "" && (p == q || Inside(p, q))
    ensures TopLevel(p) == q
    decreases |p|
  {
    if p != q {
      ParentFirst(p, q);
      OneTopLevel(Parent(p), q);
    }
  }

  // ---------------------------------------------------------------- trees without gaps

  /** Every entry is in a directory. */
  ghost predicate Closed(t: Tree) {
    IsDir(t, "") && forall q :: q in t && q != "" ==> IsDir(t, Parent(q))
  }

  /** Only directories are above p. */
  ghost predicate DirsAbove(t: Tree, p: Path) {
    forall q :: q in t && Inside(p, q) ==> t[q].Dir?
  }

  lemma {:induction false} TopLevelThere(t: Tree, p: Path)
    requires Closed(t) && p in t
    ensures TopLevel(p) in t && (IsDir(t, p) ==> IsDir(t, TopLevel(p)))
    decreases |p|
  {
    if p != "" && Parent(p) != "" {
      TopLevelThere(t, Parent(p));
    }
  }

  lemma TouchClosed(t: Tree, p: Path)
    requires Closed(t)
    ensures Closed(Touch(t, p)) && forall q :: IsDir(Touch(t, p), q) <==> IsDir(t, q)
  {
  }

  lemma PutClosed(t: Tree, p: Path, node: Node)
    requires Closed(t) && p != "" && IsDir(t, Parent(p)) && (p in t && t[p].Dir? ==> node.Dir?)
    ensures Closed(t[p := node])
  {
    forall q | q in t[p := node] && q != ""
      ensures IsDir(t[p := node], Parent(q))
    {
      assert IsDir(t, Parent(q));
    }
  }

  lemma EnterClosed(t: Tree, p: Path, node: Node)
    requires Closed(t) && p != "" && IsDir(t, Parent(p)) && (IsDir(t, p) ==> node.Dir?)
    ensures Closed(Enter(t, p, node))
  {
    TouchClosed(t, p);
    PutClosed(Touch(t, p), p, node);
  }

  lemma ClearClosed(t: Tree, p: Path)
    requires Closed(t)
    ensures Closed(Clear(t, p))
  {
    TouchClosed(t, p);
    var t' := Clear(t, p);
    forall q | q in t' && q != ""
      ensures IsDir(t', Parent(q))
    {
      assert IsDir(Touch(t, p), Parent(q));
    }
  }

  lemma {:induction false} ParentsClosed(t: Tree, p: Path)
    requires Closed(t) && DirsAbove(t, p)
    ensures Closed(MakeParents(t, p)) && (p != "" ==> IsDir(MakeParents(t, p), Parent(p)))
    decreases |p|
  {
    var d := Parent(p);
    if p != "" && d !in t {
      forall q | q in t && Inside(d, q)
        ensures t[q].Dir?
      {
        InsideTrans(p, d, q);
      }
      ParentsClosed(t, d);
      EnterClosed(MakeParents(t, d), d, Dir(None));
    }
  }

  lemma PrepareClosed(t: Tree, p: Path)
    requires Closed(t) && DirsAbove(t, p)
    ensures Closed(Prepare(t, p)) && (p != "" ==> IsDir(Prepare(t, p), Parent(p)))
  {
    ClearClosed(t, p);
    ParentsClosed(Clear(t, p), p);
  }

  /** A leaf that is cleared away is not there before the item is made. */
  lemma PlaceIsFree(t: Tree, p: Path)
    ensures p in Prepare(t, p) <==> IsDir(t, p)
    ensures IsDir(t, p) ==> IsDir(Prepare(t, p), p)
  {
    if IsDir(t, p) {
      ParentsMade(t, p, p);
    } else {
      NotMade(Clear(t, p), p, p);
    }
  }

  // ---------------------------------------------------------------- what an item does to the destination

  /** Making the parents of p changes the destination when the first of them is missing. */
  lemma {:induction false} ParentsAtRoot(t: Tree, p: Path)
    requires Closed(t) && p != ""
    ensures "" in MakeParents(t, p)
    ensures MakeParents(t, p)[""] == if TopLevel(p) == p || TopLevel(p) in t then t[""] else Dir(None)
    decreases |p|
  {
    var d := Parent(p);
    if d in t {
      TopLevelThere(t, d);
    } else {
      ParentsAtRoot(t, d);
    }
  }

  lemma PrepareAtRoot(t: Tree, p: Path)
    requires Closed(t) && p != ""
    ensures "" in Prepare(t, p)
    ensures TopLevel(p) != p ==> Prepare(t, p)[""] == if TopLevel(p) in t then t[""] else Dir(None)
    ensures TopLevel(p) == p && IsDir(t, p) ==> Prepare(t, p)[""] == t[""]
  {
    ClearClosed(t, p);
    ParentsAtRoot(Clear(t, p), p);
  }

  /** An entry made at p after its place was prepared. */
  lemma EnterAtRoot(t: Tree, p: Path, node: Node)
    requires Closed(t) && p != ""
    ensures var t' := Enter(Prepare(t, p), p, node);
      "" in t' && t'[""] == if TopLevel(p) == p || TopLevel(p) !in t then Dir(None) else t[""]
  {
    PrepareAtRoot(t, p);
    ClearClosed(t, p);
    ParentsMade(Clear(t, p), p, "");
  }

  lemma MakeDirAtRoot(t: Tree, p: Path)
    requires Closed(t) && p != ""
    ensures var t' := MakeDir(Prepare(t, p), p);
      "" in t' && t'[""] == if (if TopLevel(p) == p then IsDir(t, p) else TopLevel(p) in t) then t[""] else Dir(None)
  {
    PlaceIsFree(t, p);
    PrepareAtRoot(t, p);
    EnterAtRoot(t, p, Dir(None));
  }

  // ---------------------------------------------------------------- the directories in the destination

  ghost predicate LeafAt(items: seq<Item>, q: Path) {
    exists i :: 0 <= i < |items| && Leafy(items[i]) && Loc(items[i].path) == q
  }

  /** The directory q was there from the start, or an earlier item brought it about. */
  ghost predicate Known(items: seq<Item>, t0: Tree, q: Path, n: nat)
    requires n <= |items|
  {
    IsDir(t0, q) || exists j: nat :: j < n && Loc(items[j].path) != "" && TopLevel(Loc(items[j].path)) == q
  }

  /** Item k makes or removes an entry directly in the destination. */
  ghost predicate Touches(items: seq<Item>, t0: Tree, k: nat)
    requires k < |items|
  {
    var p := Loc(items[k].path);
    p != "" && ((Leafy(items[k]) && TopLevel(p) == p) || !Known(items, t0, TopLevel(p), k))
  }

  ghost predicate TopKnown(items: seq<Item>, t0: Tree, n: nat, t: Tree, q: Path)
    requires n <= |items|
  {
    Known(items, t0, q, n) <==> IsDir(t, q)
  }

  ghost predicate TopsKnown(items: seq<Item>, t0: Tree, n: nat, t: Tree)
    requires n <= |items|
  {
    forall q :: q != "" && Parent(q) == "" && !LeafAt(items, q) ==> TopKnown(items, t0, n, t, q)
  }

  lemma KnownNext(items: seq<Item>, t0: Tree, q: Path, n: nat)
    requires n < |items|
    ensures Known(items, t0, q, n + 1)
            <==> Known(items, t0, q, n) || (Loc(items[n].path) != "" && TopLevel(Loc(items[n].path)) == q)
  {
  }

  /** An item is about to be made, and finds its place. */
  ghost predicate Making(items: seq<Item>, bad: Faults, w: Walk, t: Tree) {
    && Valid(items, w) && Apart(items) && Closed(t)
    && w.next < |items| && Ahead(items, bad, w).next == w.next + 1
    && Loc(items[w.next].path) != "" && Open(items[w.next], t)
  }

  lemma DirSpared(t: Tree, p: Path, node: Node, q: Path)
    requires IsDir(t, q) && q != p
    ensures IsDir(Enter(t, p, node), q) && IsDir(MakeDir(t, p), q)
  {
  }

  lemma PreparedSpared(items: seq<Item>, bad: Faults, w: Walk, t: Tree, q: Path)
    requires Valid(items, w) && !Todo(items, w).SkipItem? && !Todo(items, w).StampTop? && !Todo(items, w).Finish?
    requires IsDir(Prepare(t, Loc(items[w.next].path)), q) && q != Loc(items[w.next].path)
    ensures IsDir(Effect(items, bad, w, t), q)
  {
    var p := Loc(items[w.next].path);
    var t' := Prepare(t, p);
    match Todo(items, w) {
      case PushDir => DirSpared(t', p, Dir(None), q);
      case LinkTo(target) =>
        if target in t' {
          DirSpared(t', p, t'[target], q);
        }
      case WriteFile => DirSpared(t', p, Made(items, bad, w.next), q);
      case MakeSpecial => DirSpared(t', p, Made(items, bad, w.next), q);
      case SkipItem =>
      case StampTop =>
      case Finish =>
    }
  }

  lemma ComponentMade(items: seq<Item>, bad: Faults, w: Walk, t: Tree)
    requires Making(items, bad, w, t) && TopLevel(Loc(items[w.next].path)) != Loc(items[w.next].path)
    ensures IsDir(Effect(items, bad, w, t), TopLevel(Loc(items[w.next].path)))
  {
    var p := Loc(items[w.next].path);
    PrepareClosed(t, p);
    TopLevelThere(Prepare(t, p), Parent(p));
    PreparedSpared(items, bad, w, t, TopLevel(p));
  }

  /** The directories in the destination afterwards. */
  lemma TopAfter(items: seq<Item>, bad: Faults, w: Walk, t: Tree, q: Path)
    requires Making(items, bad, w, t) && q != "" && Parent(q) == "" && !LeafAt(items, q)
    ensures IsDir(Effect(items, bad, w, t), q) <==> IsDir(t, q) || TopLevel(Loc(items[w.next].path)) == q
  {
    var p := Loc(items[w.next].path);
    if IsDir(t, q) {
      DirStays(items, bad, w, t, q);
    } else if TopLevel(p) == q {
      if p == q {
        DirMade(items, bad, w, t);
      } else {
        ComponentMade(items, bad, w, t);
      }
    } else if IsDir(Effect(items, bad, w, t), q) {
      if q in t {
        LeafStays(items, bad, w, t, q);
      } else {
        NewEntries(items, bad, w, t, q);
        OneTopLevel(p, q);
      }
    }
  }

  lemma TopsAfter(items: seq<Item>, bad: Faults, w: Walk, t: Tree, t0: Tree)
    requires Making(items, bad, w, t) && TopsKnown(items, t0, w.next, t)
    ensures TopsKnown(items, t0, w.next + 1, Effect(items, bad, w, t))
  {
    forall q | q != "" && Parent(q) == "" && !LeafAt(items, q)
      ensures TopKnown(items, t0, w.next + 1, Effect(items, bad, w, t), q)
    {
      assert TopKnown(items, t0, w.next, t, q);
      KnownNext(items, t0, q, w.next);
      TopAfter(items, bad, w, t, q);
    }
  }

  // ---------------------------------------------------------------- the destination's attributes

  /** The target of a link is there. */
  lemma TargetThere(items: seq<Item>, bad: Faults, w: Walk, t: Tree)
    requires Making(items, bad, w, t) && LeafInv(items, bad, w, t) && Todo(items, w).LinkTo?
    ensures Todo(items, w).target in Prepare(t, Loc(items[w.next].path))
  {
    var h := items[w.next].hlid.value;
    assert LinkKnown(items, bad, w, h);
    var m := First(items, bad, h, w.next);
    PrepareSpares(t, Loc(items[w.next].path), Loc(items[m].path));
  }

  lemma NoLeafAbove(items: seq<Item>, n: nat, q: Path)
    requires Apart(items) && n < |items| && Named(items[n])
    requires Inside(Loc(items[n].path), q) || (!Leafy(items[n]) && Loc(items[n].path) == q)
    ensures !LeafAt(items, q)
  {
  }

  /** The attributes of the destination are lost exactly when it is touched. */
  lemma RootAfter(items: seq<Item>, bad: Faults, w: Walk, t: Tree, t0: Tree)
    requires Making(items, bad, w, t) && LeafInv(items, bad, w, t) && TopsKnown(items, t0, w.next, t)
    ensures var t' := Effect(items, bad, w, t);
      "" in t' && t'[""] == if Touches(items, t0, w.next) then Dir(None) else t[""]
  {
    var n, p := w.next, Loc(items[w.next].path);
    var q := TopLevel(p);
    if q != p || !Leafy(items[n]) {
      NoLeafAbove(items, n, q);
      assert TopKnown(items, t0, n, t, q);
    }
    if Leafy(items[n]) {
      if Todo(items, w).LinkTo? {
        TargetThere(items, bad, w, t);
        EnterAtRoot(t, p, Prepare(t, p)[Todo(items, w).target]);
      } else {
        EnterAtRoot(t, p, Made(items, bad, n));
      }
    } else {
      MakeDirAtRoot(t, p);
    }
  }

  lemma EffectClosed(items: seq<Item>, bad: Faults, w: Walk, t: Tree)
    requires Making(items, bad, w, t)
    ensures Closed(Effect(items, bad, w, t))
  {
    var p := Loc(items[w.next].path);
    PrepareClosed(t, p);
    PlaceIsFree(t, p);
    if Todo(items, w).PushDir? {
      if p !in Prepare(t, p) {
        EnterClosed(Prepare(t, p), p, Dir(None));
      }
    } else if Todo(items, w).LinkTo? {
      if Todo(items, w).target in Prepare(t, p) {
        EnterClosed(Prepare(t, p), p, Prepare(t, p)[Todo(items, w).target]);
      }
    } else {
      EnterClosed(Prepare(t, p), p, Made(items, bad, w.next));
    }
  }

  // ---------------------------------------------------------------- over a whole extraction

  /** Item r is the destination, the only one, and no path is inside ".". */
  ghost predicate RootAt(items: seq<Item>, r: nat) {
    && r < |items| && items[r].path == "." && items[r].kind.Directory?
    && forall i :: 0 <= i < |items| ==> (i != r ==> items[i].path != ".") && !Inside(items[i].path, ".")
  }

  ghost predicate LeftAlone(items: seq<Item>, t0: Tree, r: nat, n: nat)
    requires n <= |items|
  {
    forall k :: r < k < n ==> !Touches(items, t0, k)
  }

  /** The destination waits for its attributes until the next item that has a path. */
  ghost predicate Waits(items: seq<Item>, r: nat, w: Walk)
    requires Valid(items, w)
  {
    w.pending == [r] && forall k :: r < k < w.next ==> Loc(items[k].path) == ""
  }

  ghost predicate RootState(items: seq<Item>, t0: Tree, r: nat, w: Walk, t: Tree)
    requires Valid(items, w) && r < |items|
  {
    && "" in t
    && (r < w.next ==>
      || Waits(items, r, w)
      || (r !in w.pending && t[""] == Dir(if LeftAlone(items, t0, r, w.next) then Some(items[r].attrs) else None)))
  }

  ghost predicate RootNow(items: seq<Item>, t0: Tree, r: nat, w: Walk, t: Tree)
    requires Valid(items, w) && r < |items|
  {
    Closed(t) && TopsKnown(items, t0, w.next, t) && RootState(items, t0, r, w, t)
  }

  /** The next item is nothing for the destination. */
  lemma TopsStay(items: seq<Item>, t0: Tree, n: nat, t: Tree)
    requires n < |items| && Loc(items[n].path) == "" && TopsKnown(items, t0, n, t)
    ensures TopsKnown(items, t0, n + 1, t)
  {
    forall q | q != "" && Parent(q) == "" && !LeafAt(items, q)
      ensures TopKnown(items, t0, n + 1, t, q)
    {
      assert TopKnown(items, t0, n, t, q);
      KnownNext(items, t0, q, n);
    }
  }

  /** The destination itself is met. */
  lemma MeetRoot(items: seq<Item>, bad: Faults, t0: Tree, r: nat, w: Walk, t: Tree)
    requires Valid(items, w) && RootAt(items, r) && StackOfDirs(items, w) && RootNow(items, t0, r, w, t)
    requires w.next == r && Todo(items, w).PushDir?
    ensures Effect(items, bad, w, t) == t && RootNow(items, t0, r, Ahead(items, bad, w), t)
  {
    assert w.pending == [];
    TopsStay(items, t0, r, t);
  }

  lemma StateSkipped(items: seq<Item>, t0: Tree, r: nat, w: Walk, t: Tree, w': Walk)
    requires Valid(items, w) && Valid(items, w') && r < |items| && w.next != r && w.next < |items|
    requires Loc(items[w.next].path) == "" && w'.next == w.next + 1 && w'.pending == w.pending
    requires RootState(items, t0, r, w, t)
    ensures RootState(items, t0, r, w', t)
  {
    if r < w.next {
      LeftAloneNext(items, t0, r, w.next);
      assert Waits(items, r, w) ==> Waits(items, r, w');
    }
  }

  lemma SkipOne(items: seq<Item>, bad: Faults, t0: Tree, r: nat, w: Walk, t: Tree)
    requires Valid(items, w) && RootAt(items, r) && RootNow(items, t0, r, w, t) && Todo(items, w).SkipItem?
    ensures RootNow(items, t0, r, Ahead(items, bad, w), t)
  {
    TopsStay(items, t0, w.next, t);
    StateSkipped(items, t0, r, w, t, Ahead(items, bad, w));
  }

  lemma TopsStamped(items: seq<Item>, t0: Tree, n: nat, t: Tree, p: Path, attrs: Attrs)
    requires n <= |items| && Closed(t) && TopsKnown(items, t0, n, t)
    ensures Closed(Stamp(t, p, attrs)) && TopsKnown(items, t0, n, Stamp(t, p, attrs))
  {
    assert forall q :: IsDir(Stamp(t, p, attrs), q) <==> IsDir(t, q);
    forall q | q != "" && Parent(q) == "" && !LeafAt(items, q)
      ensures TopKnown(items, t0, n, Stamp(t, p, attrs), q)
    {
      assert TopKnown(items, t0, n, t, q);
    }
  }

  lemma WaitingIsUntouched(items: seq<Item>, t0: Tree, r: nat, w: Walk)
    requires Valid(items, w) && Waits(items, r, w)
    ensures LeftAlone(items, t0, r, w.next)
  {
  }

  lemma StampOne(items: seq<Item>, bad: Faults, t0: Tree, r: nat, w: Walk, t: Tree)
    requires Valid(items, w) && RootAt(items, r) && StackOfDirs(items, w) && RootNow(items, t0, r, w, t)
    requires Todo(items, w).StampTop?
    ensures RootNow(items, t0, r, Ahead(items, bad, w), Effect(items, bad, w, t))
  {
    TopsStamped(items, t0, w.next, t, Loc(items[Top(w)].path), items[Top(w)].attrs);
    assert Top(w) in w.pending;
    if r < w.next && Waits(items, r, w) {
      WaitingIsUntouched(items, t0, r, w);
    }
  }

  lemma LeftAloneNext(items: seq<Item>, t0: Tree, r: nat, n: nat)
    requires r < n < |items|
    ensures LeftAlone(items, t0, r, n + 1) <==> LeftAlone(items, t0, r, n) && !Touches(items, t0, n)
  {
  }

  /** The walk does not make anything before the destination has its attributes. */
  lemma NoLongerWaits(items: seq<Item>, bad: Faults, r: nat, w: Walk, t: Tree)
    requires RootAt(items, r) && Making(items, bad, w, t) && w.next != r
    ensures !Waits(items, r, w)
    ensures r in Ahead(items, bad, w).pending ==> r in w.pending
  {
  }

  lemma StateMade(items: seq<Item>, t0: Tree, r: nat, w: Walk, t: Tree, w': Walk, t': Tree)
    requires Valid(items, w) && Valid(items, w') && r < |items| && w.next != r && w'.next == w.next + 1
    requires RootState(items, t0, r, w, t) && !Waits(items, r, w) && (r in w'.pending ==> r in w.pending)
    requires "" in t' && t'[""] == if Touches(items, t0, w.next) then Dir(None) else t[""]
    ensures RootState(items, t0, r, w', t')
  {
    if r < w.next {
      LeftAloneNext(items, t0, r, w.next);
    }
  }

  lemma MakeOne(items: seq<Item>, bad: Faults, t0: Tree, r: nat, w: Walk, t: Tree, w': Walk, t': Tree)
    requires RootAt(items, r) && Making(items, bad, w, t) && RootNow(items, t0, r, w, t) && LeafInv(items, bad, w, t)
    requires w.next != r && w' == Ahead(items, bad, w) && t' == Effect(items, bad, w, t)
    ensures RootNow(items, t0, r, w', t')
  {
    TopsAfter(items, bad, w, t, t0);
    RootAfter(items, bad, w, t, t0);
    EffectClosed(items, bad, w, t);
    NoLongerWaits(items, bad, r, w, t);
    StateMade(items, t0, r, w, t, w', t');
  }

  ghost predicate RootInv(items: seq<Item>, bad: Faults, t0: Tree, r: nat, s: Serial)
    requires r < |items|
  {
    SerialInv(items, bad, s) && (!s.walk.status.Failed? ==> RootNow(items, t0, r, s.walk, s.tree))
  }

  lemma FinishOne(items: seq<Item>, t0: Tree, r: nat, w: Walk, t: Tree, w': Walk)
    requires Valid(items, w) && r < |items| && RootNow(items, t0, r, w, t) && w' == w.(status := Finished)
    ensures RootNow(items, t0, r, w', t)
  {
    assert r < w.next && Waits(items, r, w) ==> Waits(items, r, w');
  }

  lemma NextIsMade(items: seq<Item>, bad: Faults, r: nat, w: Walk, t: Tree)
    requires Valid(items, w) && RootAt(items, r) && Apart(items) && Closed(t) && Ready(items, w, t)
    requires !Todo(items, w).SkipItem? && !Todo(items, w).StampTop? && !Todo(items, w).Finish?
    ensures w.next != r ==> Making(items, bad, w, t)
    ensures w.next == r ==> Todo(items, w).PushDir?
  {
  }

  lemma PlaceOne(items: seq<Item>, bad: Faults, t0: Tree, r: nat, w: Walk, t: Tree, w': Walk, t': Tree)
    requires RootAt(items, r) && Valid(items, w) && RootNow(items, t0, r, w, t)
    requires Apart(items) && LeafInv(items, bad, w, t) && DirInv(items, w, t)
    requires !Todo(items, w).SkipItem? && !Todo(items, w).StampTop? && !Todo(items, w).Finish?
    requires w' == Ahead(items, bad, w) && t' == Effect(items, bad, w, t)
    ensures RootNow(items, t0, r, w', t')
  {
    NextIsMade(items, bad, r, w, t);
    if w.next == r {
      MeetRoot(items, bad, t0, r, w, t);
    } else {
      MakeOne(items, bad, t0, r, w, t, w', t');
    }
  }

  lemma RootAhead(items: seq<Item>, bad: Faults, t0: Tree, r: nat, w: Walk, t: Tree, w': Walk, t': Tree)
    requires RootAt(items, r) && Valid(items, w) && RootNow(items, t0, r, w, t)
    requires Apart(items) && LeafInv(items, bad, w, t) && DirInv(items, w, t)
    requires w' == Ahead(items, bad, w) && t' == Effect(items, bad, w, t)
    ensures RootNow(items, t0, r, w', t')
  {
    match Todo(items, w) {
      case SkipItem => SkipOne(items, bad, t0, r, w, t);
      case StampTop => StampOne(items, bad, t0, r, w, t);
      case Finish => FinishOne(items, t0, r, w, t, w');
      case _ => PlaceOne(items, bad, t0, r, w, t, w', t');
    }
  }

  lemma RootStep(items: seq<Item>, bad: Faults, t0: Tree, r: nat, s: Serial)
    requires RootAt(items, r) && RootInv(items, bad, t0, r, s) && s.walk.status.Going?
    ensures RootInv(items, bad, t0, r, SerialStep(items, bad, s))
  {
    SerialStepKeeps(items, bad, s);
    RootAhead(items, bad, t0, r, s.walk, s.tree, Ahead(items, bad, s.walk), Effect(items, bad, s.walk, s.tree));
  }

  lemma RootStart(items: seq<Item>, bad: Faults, t0: Tree, r: nat)
    requires RootAt(items, r) && Sane(items, t0) && Closed(t0)
    ensures RootInv(items, bad, t0, r, Start(t0))
  {
    SerialStart(items, bad, t0);
    forall q | q != "" && Parent(q) == "" && !LeafAt(items, q)
      ensures TopKnown(items, t0, 0, t0, q)
    {
    }
  }

  /** Archived as ".", the destination has its attributes in the end exactly when no later
      item makes or removes an entry directly in it. */
  lemma RootKeepsAttributesIff(items: seq<Item>, bad: Faults, t0: Tree, r: nat)
    requires RootAt(items, r) && Sane(items, t0) && Closed(t0)
    requires Serially(items, bad, Start(t0)).walk.status.Finished?
    ensures var end := Serially(items, bad, Start(t0)).tree;
      && IsDir(end, "")
      && (end[""] == Dir(Some(items[r].attrs)) <==> forall k :: r < k < |items| ==> !Touches(items, t0, k))
  {
    RootStart(items, bad, t0, r);
    ghost var inv := (s: Serial) => RootInv(items, bad, t0, r, s);
    forall s: Serial | Valid(items, s.walk) && inv(s)
      ensures inv(SerialStep(items, bad, s))
    {
      if s.walk.status.Going? {
        RootStep(items, bad, t0, r, s);
      }
    }
    SerialInduction(items, bad, Start(t0), inv);
    assert RootInv(items, bad, t0, r, Serially(items, bad, Start(t0)));
  }

  /** In an empty destination the first item behind "." is made directly in it. */
  lemma {:induction false} FirstTouches(items: seq<Item>, t0: Tree, r: nat, n: nat)
    requires r < n <= |items| && t0.Keys == {""} && forall i :: 0 <= i <= r ==> Loc(items[i].path) == ""
    ensures (forall k :: r < k < n ==> !Touches(items, t0, k)) <==> forall k :: r < k < n ==> Loc(items[k].path) == ""
  {
    if r + 1 < n {
      FirstTouches(items, t0, r, n - 1);
      var p := Loc(items[n - 1].path);
      if p != "" && forall k :: r < k < n - 1 ==> Loc(items[k].path) == "" {
        assert forall i :: 0 <= i < n - 1 ==> Loc(items[i].path) == "";
        assert !Known(items, t0, TopLevel(p), n - 1);
        assert Touches(items, t0, n - 1);
      }
    }
  }

  /** So what is restored from "." down into an empty directory does not give that directory
      its attributes, unless there is nothing else to restore. */
  lemma RootIsStampedTooEarly(items: seq<Item>, bad: Faults, t0: Tree, r: nat)
    requires RootAt(items, r) && Sane(items, t0) && t0.Keys == {""}
    requires forall i :: 0 <= i < r ==> Loc(items[i].path) == ""
    requires Serially(items, bad, Start(t0)).walk.status.Finished?
    ensures var end := Serially(items, bad, Start(t0)).tree;
      IsDir(end, "")
      && (end[""] == Dir(Some(items[r].attrs)) <==> forall k :: r < k < |items| ==> Loc(items[k].path) == "")
  {
    RootKeepsAttributesIff(items, bad, t0, r);
    FirstTouches(items, t0, r, |items|);
  }
}

/** Comparing two archives: their item streams are read in lockstep, and a path only one
    side has produced so far waits as an orphan for the other side to produce it. */
module Diff {
  import opened Bytes

  datatype Item = Item(path: string, body: nat)

  /** One comparison: the path's item in either archive, or None where it is absent. */
  datatype Visit = Visit(path: string, first: Option<Item>, second: Option<Item>)

  // ---------------------------------------------------------------- an insertion-ordered map

  function Find(l: seq<Item>, path: string): (r: Option<Item>)
    ensures r.Some? ==> r.value in l && r.value.path == path
    ensures r.None? ==> forall x :: x in l ==> x.path != path
  {
    if l == [] then None else if l[0].path == path then Some(l[0]) else Find(l[1..], path)
  }

  /** A path already there keeps its place and gets the new item. */
  function Put(l: seq<Item>, it: Item): seq<Item> {
    if l == [] then [it] else if l[0].path == it.path then [it] + l[1..] else [l[0]] + Put(l[1..], it)
  }

  function Drop(l: seq<Item>, path: string): seq<Item> {
    if l == [] then [] else if l[0].path == path then l[1..] else [l[0]] + Drop(l[1..], path)
  }

  /** The slots that still hold an item. */
  function Held(order: seq<Option<Item>>): seq<Item> {
    if order == [] then []
    else (if order[0].Some? then [order[0].value] else []) + Held(order[1..])
  }

  /** The index knows exactly where the items still held are. */
  ghost predicate Indexed(order: seq<Option<Item>>, index: map<string, nat>) {
    && (forall p :: p in index ==> index[p] < |order| && order[index[p]].Some? && order[index[p]].value.path == p)
    && (forall i :: 0 <= i < |order| && order[i].Some? ==>
         order[i].value.path in index && index[order[i].value.path] == i)
  }

  class Orphans {
    var order: seq<Option<Item>>
    var index: map<string, nat>

    ghost predicate Valid()
      reads this
    {
      Indexed(order, index)
    }

    ghost function Contents(): seq<Item>
      reads this
    {
      Held(order)
    }

    /** No path is held twice, so the laws of a map apply to what is held. */
    lemma EachPathOnce(q: string, p: string)
      requires Valid()
      ensures Distinct(Contents())
      ensures Find(Drop(Contents(), q), p) == if p == q then None else Find(Contents(), p)
    {
      SlotsDistinct(order);
      FindAfterDrop(Contents(), q, p);
    }

    constructor ()
      ensures Valid() && Contents() == []
    {
      order, index := [], map[];
    }

    method Insert(it: Item)
      requires Valid()
      modifies this
      ensures Valid() && Contents() == Put(old(Contents()), it)
    {
      if it.path in index {
        HeldReplace(order, index[it.path], it);
        order := order[index[it.path] := Some(it)];
        return;
      }
      HeldAppend(order, it);
      index := index[it.path := |order|];
      order := order + [Some(it)];
    }

    method Take(path: string) returns (it: Option<Item>)
      requires Valid()
      modifies this
      ensures Valid() && it == Find(old(Contents()), path)
      ensures Contents() == Drop(old(Contents()), path)
    {
      if path !in index {
        HeldWithout(order, path);
        return None;
      }
      var i := index[path];
      HeldRemove(order, i);
      it := order[i];
      order := order[i := None];
      index := index - {path};
    }

    method Rest() returns (out: seq<Item>)
      requires Valid()
      ensures out == Contents()
    {
      out := [];
      for i := 0 to |order|
        invariant out + Held(order[i..]) == Contents()
      {
        HeldNext(out, order, i);
        if order[i].Some? {
          out := out + [order[i].value];
        }
      }
    }
  }

  lemma HeldHead(order: seq<Option<Item>>)
    requires order != []
    ensures order[0].Some? ==> Held(order) == [order[0].value] + Held(order[1..]) && Held(order)[1..] == Held(order[1..])
    ensures order[0].None? ==> Held(order) == Held(order[1..])
  {
  }

  /** Every item held is in a slot. */
  lemma {:induction false} HeldIsSlot(order: seq<Option<Item>>, k: nat)
    requires k < |Held(order)|
    ensures Some(Held(order)[k]) in order
  {
    HeldHead(order);
    if order[0].None? {
      HeldIsSlot(order[1..], k);
    } else if k > 0 {
      HeldIsSlot(order[1..], k - 1);
    }
  }

  /** No path is held twice. */
  lemma {:induction false} SlotsDistinct(order: seq<Option<Item>>)
    requires forall i, j :: 0 <= i < j < |order| && order[i].Some? && order[j].Some? ==> order[i].value.path != order[j].value.path
    ensures Distinct(Held(order))
  {
    if order != [] {
      SlotsDistinct(order[1..]);
      HeldHead(order);
      if order[0].Some? {
        forall k | 0 <= k < |Held(order[1..])|
          ensures Held(order[1..])[k].path != order[0].value.path
        {
          HeldIsSlot(order[1..], k);
          var j :| 0 <= j < |order[1..]| && order[1..][j] == Some(Held(order[1..])[k]);
          assert order[j + 1] == order[1..][j];
        }
      }
    }
  }

  lemma {:induction false} HeldReplace(order: seq<Option<Item>>, i: nat, it: Item)
    requires i < |order| && order[i].Some? && order[i].value.path == it.path
    requires forall j :: 0 <= j < i && order[j].Some? ==> order[j].value.path != it.path
    ensures Held(order[i := Some(it)]) == Put(Held(order), it)
  {
    var after := order[i := Some(it)];
    HeldHead(order);
    HeldHead(after);
    if i == 0 {
      assert after[1..] == order[1..];
    } else {
      HeldReplace(order[1..], i - 1, it);
      assert after[1..] == order[1..][i - 1 := Some(it)];
    }
  }

  lemma {:induction false} HeldAppend(order: seq<Option<Item>>, it: Item)
    requires forall j :: 0 <= j < |order| && order[j].Some? ==> order[j].value.path != it.path
    ensures Held(order + [Some(it)]) == Put(Held(order), it)
  {
    var after := order + [Some(it)];
    HeldHead(after);
    if order == [] {
      assert after[1..] == [];
    } else {
      HeldHead(order);
      HeldAppend(order[1..], it);
      assert after[1..] == order[1..] + [Some(it)];
    }
  }

  lemma {:induction false} HeldWithout(order: seq<Option<Item>>, path: string)
    requires forall j :: 0 <= j < |order| && order[j].Some? ==> order[j].value.path != path
    ensures Find(Held(order), path) == None && Drop(Held(order), path) == Held(order)
  {
    if order != [] {
      HeldHead(order);
      HeldWithout(order[1..], path);
    }
  }

  lemma {:induction false} HeldRemove(order: seq<Option<Item>>, i: nat)
    requires i < |order| && order[i].Some?
    requires forall j :: 0 <= j < i && order[j].Some? ==> order[j].value.path != order[i].value.path
    ensures Find(Held(order), order[i].value.path) == order[i]
    ensures Held(order[i := None]) == Drop(Held(order), order[i].value.path)
  {
    var after := order[i := None];
    HeldHead(order);
    HeldHead(after);
    if i == 0 {
      assert after[1..] == order[1..];
    } else {
      HeldRemove(order[1..], i - 1);
      assert after[1..] == order[1..][i - 1 := None];
    }
  }

  lemma HeldNext(out: seq<Item>, order: seq<Option<Item>>, i: nat)
    requires i < |order|
    ensures out + Held(order[i..]) == (if order[i].Some? then out + [order[i].value] else out) + Held(order[i + 1..])
  {
    HeldHead(order[i..]);
    assert order[i..][1..] == order[i + 1..];
    if order[i].Some? {
      Regroup(out, [order[i].value], Held(order[i + 1..]));
    }
  }

  // ---------------------------------------------------------------- the lockstep

  datatype State = State(left: seq<Item>, right: seq<Item>, out: seq<Visit>)

  function At(s: seq<Item>, i: nat): Option<Item> {
    if i < |s| then Some(s[i]) else None
  }

  /** An item of the first archive that its partner does not come with. */
  function StepLeft(st: State, x: Item): State {
    match Find(st.right, x.path)
    case Some(y) => State(st.left, Drop(st.right, x.path), st.out + [Visit(x.path, Some(x), Some(y))])
    case None => st.(left := Put(st.left, x))
  }

  function StepRight(st: State, y: Item): State {
    match Find(st.left, y.path)
    case Some(x) => State(Drop(st.left, y.path), st.right, st.out + [Visit(y.path, Some(x), Some(y))])
    case None => st.(right := Put(st.right, y))
  }

  function StepBoth(st: State, x: Option<Item>, y: Option<Item>): State {
    if x.Some? && y.Some? && x.value.path == y.value.path then
      st.(out := st.out + [Visit(x.value.path, x, y)])
    else
      var st1 := if x.Some? then StepLeft(st, x.value) else st;
      if y.Some? then StepRight(st1, y.value) else st1
  }

  function After(a: seq<Item>, b: seq<Item>, n: nat): State {
    if n == 0 then State([], [], []) else StepBoth(After(a, b, n - 1), At(a, n - 1), At(b, n - 1))
  }

  function Additions(l: seq<Item>): seq<Visit> {
    seq(|l|, i requires 0 <= i < |l| => Visit(l[i].path, None, Some(l[i])))
  }

  function Removals(l: seq<Item>): seq<Visit> {
    seq(|l|, i requires 0 <= i < |l| => Visit(l[i].path, Some(l[i]), None))
  }

  function Rounds(a: seq<Item>, b: seq<Item>): nat {
    if |a| < |b| then |b| else |a|
  }

  function Visits(a: seq<Item>, b: seq<Item>): seq<Visit> {
    var st := After(a, b, Rounds(a, b));
    st.out + Additions(st.right) + Removals(st.left)
  }

  /** An item takes its partner from the other side's orphans, or joins its own side's. */
  method Meet(it: Item, mine: Orphans, others: Orphans) returns (partner: Option<Item>)
    requires mine != others && mine.Valid() && others.Valid()
    modifies mine, others
    ensures mine.Valid() && others.Valid()
    ensures partner == Find(old(others.Contents()), it.path)
    ensures partner.Some? ==>
      others.Contents() == Drop(old(others.Contents()), it.path) && mine.Contents() == old(mine.Contents())
    ensures partner.None? ==>
      others.Contents() == old(others.Contents()) && mine.Contents() == Put(old(mine.Contents()), it)
  {
    partner := others.Take(it.path);
    if partner.None? {
      DropAbsent(old(others.Contents()), it.path);
      mine.Insert(it);
    }
  }

  /** One item of each stream, as long as it has one. */
  method Round(x: Option<Item>, y: Option<Item>, orphans1: Orphans, orphans2: Orphans, visits: seq<Visit>)
      returns (visits': seq<Visit>)
    requires orphans1 != orphans2 && orphans1.Valid() && orphans2.Valid()
    modifies orphans1, orphans2
    ensures orphans1.Valid() && orphans2.Valid()
    ensures State(orphans1.Contents(), orphans2.Contents(), visits')
      == StepBoth(State(old(orphans1.Contents()), old(orphans2.Contents()), visits), x, y)
  {
    visits' := visits;
    if x.Some? && y.Some? && x.value.path == y.value.path {
      visits' := visits' + [Visit(x.value.path, x, y)];
      return;
    }
    if x.Some? {
      var partner := Meet(x.value, orphans1, orphans2);
      if partner.Some? {
        visits' := visits' + [Visit(x.value.path, x, partner)];
      }
    }
    if y.Some? {
      var partner := Meet(y.value, orphans2, orphans1);
      if partner.Some? {
        visits' := visits' + [Visit(y.value.path, partner, y)];
      }
    }
  }

  /** The rounds of two streams; false as soon as one of them breaks off with an error. */
  method AllRounds(a: seq<Item>, b: seq<Item>, brokenA: bool, brokenB: bool, orphans1: Orphans, orphans2: Orphans)
      returns (visits: seq<Visit>, ok: bool)
    requires orphans1 != orphans2 && orphans1.Valid() && orphans2.Valid()
    requires orphans1.Contents() == [] && orphans2.Contents() == []
    modifies orphans1, orphans2
    ensures ok <==> !brokenA && !brokenB
    ensures orphans1.Valid() && orphans2.Valid()
    ensures ok ==> State(orphans1.Contents(), orphans2.Contents(), visits) == After(a, b, Rounds(a, b))
    ensures !ok ==> visits == After(a, b, if brokenA && (!brokenB || |a| <= |b|) then |a| else |b|).out
  {
    visits, ok := [], true;
    var i := 0;
    while true
      invariant orphans1.Valid() && orphans2.Valid() && ok
      invariant i <= Rounds(a, b) && (brokenA ==> i <= |a|) && (brokenB ==> i <= |b|)
      invariant State(orphans1.Contents(), orphans2.Contents(), visits) == After(a, b, i)
      decreases Rounds(a, b) - i
    {
      if i >= |a| && brokenA {
        return visits, false;
      }
      if i >= |b| && brokenB {
        return visits, false;
      }
      if i >= |a| && i >= |b| {
        return;
      }
      i := i + 1;
      visits := Round(At(a, i - 1), At(b, i - 1), orphans1, orphans2, visits);
    }
  }

  /** A stream that breaks off with an error ends the comparison there. */
  method Compare(a: seq<Item>, b: seq<Item>, brokenA: bool, brokenB: bool) returns (visits: seq<Visit>, ok: bool)
    ensures ok <==> !brokenA && !brokenB
    ensures ok ==> visits == Visits(a, b)
    ensures !ok ==> visits == After(a, b, if brokenA && (!brokenB || |a| <= |b|) then |a| else |b|).out
  {
    var orphans1 := new Orphans();
    var orphans2 := new Orphans();
    visits, ok := AllRounds(a, b, brokenA, brokenB, orphans1, orphans2);
    if !ok {
      return;
    }
    var added := orphans2.Rest();
    visits := visits + Additions(added);
    var removed := orphans1.Rest();
    visits := visits + Removals(removed);
  }

  lemma {:induction false} DropAbsent(l: seq<Item>, path: string)
    requires Find(l, path).None?
    ensures Drop(l, path) == l
  {
    if l != [] {
      DropAbsent(l[1..], path);
    }
  }

  // ---------------------------------------------------------------- the lockstep against the two maps

  function Paths(l: seq<Item>): set<string> {
    set x | x in l :: x.path
  }

  ghost predicate Distinct(l: seq<Item>) {
    forall i, j :: 0 <= i < j < |l| ==> l[i].path != l[j].path
  }

  /** The first n items of a stream. */
  function Upto(s: seq<Item>, n: nat): seq<Item> {
    if n <= |s| then s[..n] else s
  }

  /** The items whose path is not in a set, in order. */
  function Unmatched(l: seq<Item>, paths: set<string>): seq<Item> {
    if l == [] then []
    else
      var x := l[|l| - 1];
      Unmatched(l[..|l| - 1], paths) + if x.path in paths then [] else [x]
  }

  lemma UnmatchedSnoc(l: seq<Item>, x: Item, paths: set<string>)
    ensures Unmatched(l + [x], paths) == Unmatched(l, paths) + if x.path in paths then [] else [x]
  {
    assert (l + [x])[..|l|] == l;
  }

  lemma {:induction false} UnmatchedFind(l: seq<Item>, paths: set<string>, p: string)
    ensures Find(Unmatched(l, paths), p) == if p in paths then None else Find(l, p)
  {
    if l != [] {
      var x, init := l[|l| - 1], l[..|l| - 1];
      UnmatchedFind(init, paths, p);
      assert l == init + [x];
      FindAppend(init, [x], p);
      FindAppend(Unmatched(init, paths), if x.path in paths then [] else [x], p);
      assert Find([x], p) == if x.path == p then Some(x) else Find([], p);
    }
  }

  lemma {:induction false} FindAppend(a: seq<Item>, b: seq<Item>, p: string)
    ensures Find(a + b, p) == if Find(a, p).Some? then Find(a, p) else Find(b, p)
  {
    if a == [] {
      assert a + b == b;
    } else {
      assert (a + b)[1..] == a[1..] + b;
      FindAppend(a[1..], b, p);
    }
  }

  lemma {:induction false} DropAppend(a: seq<Item>, b: seq<Item>, p: string)
    ensures Drop(a + b, p) == if Find(a, p).Some? then Drop(a, p) + b else a + Drop(b, p)
  {
    if a == [] {
      assert a + b == b;
    } else {
      assert (a + b)[1..] == a[1..] + b;
      DropAppend(a[1..], b, p);
    }
  }

  lemma {:induction false} PutNew(l: seq<Item>, it: Item)
    requires Find(l, it.path).None?
    ensures Put(l, it) == l + [it]
  {
    if l != [] {
      PutNew(l[1..], it);
    }
  }

  /** One more path to match drops its item. */
  lemma {:induction false} UnmatchedMore(l: seq<Item>, paths: set<string>, p: string)
    requires Distinct(l) && p !in paths
    ensures Unmatched(l, paths + {p}) == Drop(Unmatched(l, paths), p)
  {
    if l != [] {
      var x, init := l[|l| - 1], l[..|l| - 1];
      UnmatchedMore(init, paths, p);
      assert init + [x] == l;
      LastIsNew(init, x);
      UnmatchedFind(init, paths, p);
      var u := Unmatched(init, paths);
      if x.path in paths {
        assert u + [] == u && Drop(u, p) + [] == Drop(u, p);
      } else {
        DropSnoc(u, x, p);
        assert Drop(u, p) + [] == Drop(u, p);
      }
    }
  }

  lemma DropSnoc(u: seq<Item>, x: Item, p: string)
    requires x.path == p ==> Find(u, p).None?
    ensures Drop(u + [x], p) == if x.path == p then Drop(u, p) else Drop(u, p) + [x]
  {
    DropAppend(u, [x], p);
    if Find(u, p).None? {
      DropAbsent(u, p);
      assert [x][1..] == [] && Drop([], p) == [];
      assert Drop([x], p) == if x.path == p then [] else [x];
    }
  }

  lemma LastIsNew(init: seq<Item>, x: Item)
    requires Distinct(init + [x])
    ensures Find(init, x.path).None? && Distinct(init)
  {
    var l := init + [x];
    forall i | 0 <= i < |init|
      ensures init[i].path != x.path
    {
      assert l[i] == init[i] && l[|init|] == x;
    }
    forall i, j | 0 <= i < j < |init|
      ensures init[i].path != init[j].path
    {
      assert l[i] == init[i] && l[j] == init[j];
    }
  }

  /** Put and Drop are those of a map, whatever order they are called in. */
  lemma {:induction false} FindAfterPut(l: seq<Item>, it: Item, p: string)
    ensures Find(Put(l, it), p) == if p == it.path then Some(it) else Find(l, p)
  {
    if l != [] && l[0].path != it.path {
      FindAfterPut(l[1..], it, p);
      assert Put(l, it)[1..] == Put(l[1..], it);
    } else if l != [] {
      assert Put(l, it)[1..] == l[1..];
    }
  }

  lemma {:induction false} FindAfterDrop(l: seq<Item>, q: string, p: string)
    requires Distinct(l)
    ensures Find(Drop(l, q), p) == if p == q then None else Find(l, p)
  {
    if l != [] {
      if l[0].path == q {
        forall k | 0 <= k < |l| - 1
          ensures l[1..][k].path != q
        {
          assert l[1..][k] == l[k + 1];
        }
      } else {
        FindAfterDrop(l[1..], q, p);
        assert Drop(l, q)[1..] == Drop(l[1..], q);
      }
    }
  }

  lemma PathsSnoc(l: seq<Item>, x: Item)
    ensures Paths(l + [x]) == Paths(l) + {x.path}
  {
  }

  lemma FindIsPath(l: seq<Item>, p: string)
    ensures Find(l, p).Some? <==> p in Paths(l)
  {
  }

  /** The item x arrives: what it takes from the other side's orphans or adds to its own. */
  lemma MeetKeeps(mine: seq<Item>, others: seq<Item>, x: Item)
    requires Distinct(mine + [x]) && Distinct(others)
    ensures var p, ours, theirs := x.path, Paths(mine), Paths(others);
      && Find(Unmatched(others, ours), p) == Find(others, p)
      && Paths(mine + [x]) == ours + {p}
      && Unmatched(others, ours + {p}) == Drop(Unmatched(others, ours), p)
      && Unmatched(mine + [x], theirs) ==
         if p in theirs then Unmatched(mine, theirs) else Put(Unmatched(mine, theirs), x)
  {
    var p, ours, theirs := x.path, Paths(mine), Paths(others);
    LastIsNew(mine, x);
    FindIsPath(mine, p);
    UnmatchedFind(others, ours, p);
    UnmatchedMore(others, ours, p);
    UnmatchedSnoc(mine, x, theirs);
    PathsSnoc(mine, x);
    if p in theirs {
      assert Unmatched(mine, theirs) + [] == Unmatched(mine, theirs);
    } else {
      UnmatchedFind(mine, theirs, p);
      PutNew(Unmatched(mine, theirs), x);
    }
  }

  /** What two streams have left over so far, and the pairs they have completed. */
  ghost predicate Reached(st: State, a: seq<Item>, b: seq<Item>, out: seq<Visit>) {
    st == State(Unmatched(a, Paths(b)), Unmatched(b, Paths(a)), out)
  }

  function PairOf(x: Item, y: Option<Item>): seq<Visit> {
    if y.Some? then [Visit(x.path, Some(x), y)] else []
  }

  function PairTo(x: Option<Item>, y: Item): seq<Visit> {
    if x.Some? then [Visit(y.path, x, Some(y))] else []
  }

  lemma LeftReaches(st: State, a: seq<Item>, b: seq<Item>, out: seq<Visit>, x: Item)
    requires Reached(st, a, b, out) && Distinct(a + [x]) && Distinct(b)
    ensures Reached(StepLeft(st, x), a + [x], b, out + PairOf(x, Find(b, x.path)))
  {
    MeetKeeps(a, b, x);
    FindIsPath(b, x.path);
    if Find(b, x.path).None? {
      DropAbsent(Unmatched(b, Paths(a)), x.path);
      assert out + [] == out;
    }
  }

  lemma RightReaches(st: State, a: seq<Item>, b: seq<Item>, out: seq<Visit>, y: Item)
    requires Reached(st, a, b, out) && Distinct(a) && Distinct(b + [y])
    ensures Reached(StepRight(st, y), a, b + [y], out + PairTo(Find(a, y.path), y))
  {
    MeetKeeps(b, a, y);
    FindIsPath(a, y.path);
    if Find(a, y.path).None? {
      DropAbsent(Unmatched(a, Paths(b)), y.path);
      assert out + [] == out;
    }
  }

  lemma BothReach(st: State, a: seq<Item>, b: seq<Item>, out: seq<Visit>, x: Item, y: Item)
    requires Reached(st, a, b, out) && Distinct(a + [x]) && Distinct(b + [y]) && x.path == y.path
    ensures Reached(st, a + [x], b + [y], out)
  {
    LastIsNew(a, x);
    LastIsNew(b, y);
    MeetKeeps(a, b, x);
    MeetKeeps(b, a, y);
    DropAbsent(Unmatched(b, Paths(a)), x.path);
    DropAbsent(Unmatched(a, Paths(b)), x.path);
    UnmatchedSnoc(a, x, Paths(b + [y]));
    UnmatchedSnoc(b, y, Paths(a + [x]));
    assert Unmatched(a, Paths(b + [y])) + [] == Unmatched(a, Paths(b));
    assert Unmatched(b, Paths(a + [x])) + [] == Unmatched(b, Paths(a));
  }

  function Extend(l: seq<Item>, x: Option<Item>): seq<Item> {
    if x.Some? then l + [x.value] else l
  }

  /** The pair x completes, and then y. */
  function ByFirst(b: seq<Item>, x: Option<Item>): seq<Visit> {
    if x.Some? then PairOf(x.value, Find(b, x.value.path)) else []
  }

  function BySecond(a: seq<Item>, y: Option<Item>): seq<Visit> {
    if y.Some? then PairTo(Find(a, y.value.path), y.value) else []
  }

  predicate SamePath(x: Option<Item>, y: Option<Item>) {
    x.Some? && y.Some? && x.value.path == y.value.path
  }

  /** The pairs completed when x and y come in after a and b: by x, then by y. */
  function Completed(a: seq<Item>, b: seq<Item>, x: Option<Item>, y: Option<Item>): seq<Visit> {
    if SamePath(x, y) then [Visit(x.value.path, x, y)] else ByFirst(b, x) + BySecond(Extend(a, x), y)
  }

  lemma RoundReaches(st: State, a: seq<Item>, b: seq<Item>, out: seq<Visit>, x: Option<Item>, y: Option<Item>)
    requires Reached(st, a, b, out) && Distinct(Extend(a, x)) && Distinct(Extend(b, y)) && Distinct(b)
    ensures Reached(StepBoth(st, x, y), Extend(a, x), Extend(b, y), out + Completed(a, b, x, y))
  {
    if x.Some? && y.Some? && x.value.path == y.value.path {
      BothReach(st, a, b, out, x.value, y.value);
    } else {
      var one, two := ByFirst(b, x), BySecond(Extend(a, x), y);
      var st1 := if x.Some? then StepLeft(st, x.value) else st;
      assert Reached(st1, Extend(a, x), b, out + one) by {
        if x.Some? {
          LeftReaches(st, a, b, out, x.value);
        } else {
          assert out + [] == out;
        }
      }
      if y.Some? {
        RightReaches(st1, Extend(a, x), b, out + one, y.value);
      } else {
        assert out + one + [] == out + one;
      }
      Regroup(out, one, two);
    }
  }

  /** The pairs of the first n rounds, in the order they are completed. */
  function Pairs(a: seq<Item>, b: seq<Item>, n: nat): seq<Visit> {
    if n == 0 then []
    else Pairs(a, b, n - 1) + Completed(Upto(a, n - 1), Upto(b, n - 1), At(a, n - 1), At(b, n - 1))
  }

  lemma UptoNext(s: seq<Item>, n: nat)
    requires Distinct(s)
    ensures Distinct(Upto(s, n)) && Distinct(Upto(s, n + 1))
    ensures Upto(s, n + 1) == Extend(Upto(s, n), At(s, n))
  {
  }

  lemma {:induction false} Rounded(a: seq<Item>, b: seq<Item>, n: nat)
    requires Distinct(a) && Distinct(b)
    ensures Reached(After(a, b, n), Upto(a, n), Upto(b, n), Pairs(a, b, n))
  {
    if n > 0 {
      var m := n - 1;
      Rounded(a, b, m);
      UptoNext(a, m);
      UptoNext(b, m);
      RoundReaches(After(a, b, m), Upto(a, m), Upto(b, m), Pairs(a, b, m), At(a, m), At(b, m));
    }
  }

  /** In what order the visits come: the pairs as they are completed, then what only the
      second archive has, in its order, then what only the first has, in its order. */
  lemma VisitOrder(a: seq<Item>, b: seq<Item>)
    requires Distinct(a) && Distinct(b)
    ensures Visits(a, b) == Pairs(a, b, Rounds(a, b)) + Additions(Unmatched(b, Paths(a))) + Removals(Unmatched(a, Paths(b)))
  {
    Rounded(a, b, Rounds(a, b));
    assert Upto(a, Rounds(a, b)) == a && Upto(b, Rounds(a, b)) == b;
  }

  // ---------------------------------------------------------------- every path once

  /** The visits of one path. */
  function VisitsOf(vs: seq<Visit>, p: string): seq<Visit> {
    if vs == [] then [] else VisitsOf(vs[..|vs| - 1], p) + if vs[|vs| - 1].path == p then [vs[|vs| - 1]] else []
  }

  lemma {:induction false} VisitsOfAppend(a: seq<Visit>, b: seq<Visit>, p: string)
    ensures VisitsOf(a + b, p) == VisitsOf(a, p) + VisitsOf(b, p)
  {
    if b == [] {
      assert a + b == a && VisitsOf(a, p) + [] == VisitsOf(a, p);
    } else {
      var init, last := b[..|b| - 1], b[|b| - 1];
      assert (a + b)[..|a + b| - 1] == a + init;
      VisitsOfAppend(a, init, p);
      Regroup(VisitsOf(a, p), VisitsOf(init, p), if last.path == p then [last] else []);
    }
  }

  lemma VisitsOfOne(v: Visit, p: string)
    ensures VisitsOf([v], p) == if v.path == p then [v] else []
  {
    assert [v][..0] == [];
    assert VisitsOf([], p) == [];
  }

  /** The visit a map-based comparison makes of a path, if it has one to make. */
  function Looked(x: Option<Item>, y: Option<Item>, p: string): seq<Visit> {
    if x.Some? || y.Some? then [Visit(p, x, y)] else []
  }

  lemma FindSnoc(l: seq<Item>, x: Item, p: string)
    ensures Find(l + [x], p) == if Find(l, p).Some? then Find(l, p) else if x.path == p then Some(x) else None
  {
    FindAppend(l, [x], p);
    assert Find([x], p) == if x.path == p then Some(x) else Find([], p);
  }

  lemma VisitsOfSnoc(vs: seq<Visit>, v: Visit, p: string)
    ensures VisitsOf(vs + [v], p) == if v.path == p then VisitsOf(vs, p) + [v] else VisitsOf(vs, p)
  {
    VisitsOfAppend(vs, [v], p);
    VisitsOfOne(v, p);
    assert VisitsOf(vs, p) + [] == VisitsOf(vs, p);
  }

  lemma AdditionsSnoc(u: seq<Item>, x: Item, p: string)
    ensures VisitsOf(Additions(u + [x]), p)
      == VisitsOf(Additions(u), p) + if x.path == p then [Visit(p, None, Some(x))] else []
  {
    var v := Visit(x.path, None, Some(x));
    assert Additions(u + [x]) == Additions(u) + [v];
    VisitsOfSnoc(Additions(u), v, p);
    Neutral(VisitsOf(Additions(u), p));
  }

  lemma RemovalsSnoc(u: seq<Item>, x: Item, p: string)
    ensures VisitsOf(Removals(u + [x]), p)
      == VisitsOf(Removals(u), p) + if x.path == p then [Visit(p, Some(x), None)] else []
  {
    var v := Visit(x.path, Some(x), None);
    assert Removals(u + [x]) == Removals(u) + [v];
    VisitsOfSnoc(Removals(u), v, p);
    Neutral(VisitsOf(Removals(u), p));
  }

  lemma {:induction false} AdditionsOf(l: seq<Item>, paths: set<string>, p: string)
    requires Distinct(l)
    ensures VisitsOf(Additions(Unmatched(l, paths)), p) == if p in paths then [] else Looked(None, Find(l, p), p)
  {
    if l != [] {
      var x, init := l[|l| - 1], l[..|l| - 1];
      assert init + [x] == l;
      LastIsNew(init, x);
      AdditionsOf(init, paths, p);
      FindSnoc(init, x, p);
      UnmatchedSnoc(init, x, paths);
      Neutral(Unmatched(init, paths));
      AdditionsSnoc(Unmatched(init, paths), x, p);
    }
  }

  lemma {:induction false} RemovalsOf(l: seq<Item>, paths: set<string>, p: string)
    requires Distinct(l)
    ensures VisitsOf(Removals(Unmatched(l, paths)), p) == if p in paths then [] else Looked(Find(l, p), None, p)
  {
    if l != [] {
      var x, init := l[|l| - 1], l[..|l| - 1];
      assert init + [x] == l;
      LastIsNew(init, x);
      RemovalsOf(init, paths, p);
      FindSnoc(init, x, p);
      UnmatchedSnoc(init, x, paths);
      Neutral(Unmatched(init, paths));
      RemovalsSnoc(Unmatched(init, paths), x, p);
    }
  }

  /** The visit of a path, once both streams have produced it. */
  function Matched(x: Option<Item>, y: Option<Item>, p: string): seq<Visit> {
    if x.Some? && y.Some? then [Visit(p, x, y)] else []
  }

  lemma FindExtend(l: seq<Item>, x: Option<Item>, p: string)
    requires Distinct(Extend(l, x))
    ensures Distinct(l)
    ensures x.Some? && x.value.path == p ==> Find(l, p).None? && Find(Extend(l, x), p) == x
    ensures x.None? || x.value.path != p ==> Find(Extend(l, x), p) == Find(l, p)
  {
    if x.Some? {
      LastIsNew(l, x.value);
      FindSnoc(l, x.value, p);
    }
  }

  predicate On(x: Option<Item>, p: string) {
    x.Some? && x.value.path == p
  }

  function Of(vs: seq<Visit>, p: string): seq<Visit> {
    if vs != [] && vs[0].path == p then vs else []
  }

  lemma TwoVisits(one: seq<Visit>, two: seq<Visit>, p: string)
    requires |one| <= 1 && |two| <= 1
    ensures VisitsOf(one + two, p) == Of(one, p) + Of(two, p)
  {
    VisitsOfAppend(one, two, p);
    PairVisits(one, p);
    PairVisits(two, p);
  }

  /** Of the pairs a round completes, those of one path. */
  lemma CompletedVisits(a: seq<Item>, b: seq<Item>, x: Option<Item>, y: Option<Item>, p: string)
    requires !SamePath(x, y)
    ensures VisitsOf(Completed(a, b, x, y), p)
      == (if On(x, p) then ByFirst(b, x) else []) + if On(y, p) then BySecond(Extend(a, x), y) else []
  {
    TwoVisits(ByFirst(b, x), BySecond(Extend(a, x), y), p);
  }

  lemma CompletedOf(a: seq<Item>, b: seq<Item>, x: Option<Item>, y: Option<Item>, p: string)
    requires Distinct(Extend(a, x)) && Distinct(Extend(b, y))
    ensures Matched(Find(a, p), Find(b, p), p) + VisitsOf(Completed(a, b, x, y), p)
      == Matched(Find(Extend(a, x), p), Find(Extend(b, y), p), p)
  {
    FindExtend(a, x, p);
    FindExtend(b, y, p);
    var before := Matched(Find(a, p), Find(b, p), p);
    Neutral(before);
    if SamePath(x, y) {
      VisitsOfOne(Visit(x.value.path, x, y), p);
    } else {
      CompletedVisits(a, b, x, y, p);
      Neutral(ByFirst(b, x));
      Neutral(BySecond(Extend(a, x), y));
    }
  }

  lemma Neutral<T>(s: seq<T>)
    ensures [] + s == s && s + [] == s
  {
  }

  lemma PairVisits(vs: seq<Visit>, p: string)
    requires |vs| <= 1
    ensures VisitsOf(vs, p) == Of(vs, p)
  {
    if vs != [] {
      VisitsOfOne(vs[0], p);
      assert vs == [vs[0]];
    }
  }

  lemma {:induction false} PairsOf(a: seq<Item>, b: seq<Item>, n: nat, p: string)
    requires Distinct(a) && Distinct(b)
    ensures VisitsOf(Pairs(a, b, n), p) == Matched(Find(Upto(a, n), p), Find(Upto(b, n), p), p)
  {
    if n > 0 {
      var m := n - 1;
      PairsOf(a, b, m, p);
      UptoNext(a, m);
      UptoNext(b, m);
      CompletedOf(Upto(a, m), Upto(b, m), At(a, m), At(b, m), p);
      VisitsOfAppend(Pairs(a, b, m), Completed(Upto(a, m), Upto(b, m), At(a, m), At(b, m)), p);
    }
  }

  lemma VisitsSplit(a: seq<Item>, b: seq<Item>, p: string)
    requires Distinct(a) && Distinct(b)
    ensures VisitsOf(Visits(a, b), p) ==
      VisitsOf(Pairs(a, b, Rounds(a, b)), p) + VisitsOf(Additions(Unmatched(b, Paths(a))), p)
      + VisitsOf(Removals(Unmatched(a, Paths(b))), p)
  {
    var pairs, added := Pairs(a, b, Rounds(a, b)), Additions(Unmatched(b, Paths(a)));
    VisitOrder(a, b);
    VisitsOfAppend(pairs, added, p);
    VisitsOfAppend(pairs + added, Removals(Unmatched(a, Paths(b))), p);
  }

  lemma AllThree(vs: seq<Visit>, pairs: seq<Visit>, added: seq<Visit>, removed: seq<Visit>, x: Option<Item>, y: Option<Item>, p: string)
    requires vs == pairs + added + removed && pairs == Matched(x, y, p)
    requires added == if x.Some? then [] else Looked(None, y, p)
    requires removed == if y.Some? then [] else Looked(x, None, p)
    ensures vs == Looked(x, y, p)
  {
  }

  /** For streams without repeated paths, every path either archive has is visited exactly
      once, with the items a lookup in the two archives by path would find, and no other
      path is visited. */
  lemma VisitsEachPathOnce(a: seq<Item>, b: seq<Item>, p: string)
    requires Distinct(a) && Distinct(b)
    ensures VisitsOf(Visits(a, b), p) == Looked(Find(a, p), Find(b, p), p)
  {
    var n := Rounds(a, b);
    var added, removed := Additions(Unmatched(b, Paths(a))), Removals(Unmatched(a, Paths(b)));
    VisitsSplit(a, b, p);
    PairsOf(a, b, n, p);
    assert Upto(a, n) == a && Upto(b, n) == b;
    AdditionsOf(b, Paths(a), p);
    RemovalsOf(a, Paths(b), p);
    FindIsPath(a, p);
    FindIsPath(b, p);
    AllThree(VisitsOf(Visits(a, b), p), VisitsOf(Pairs(a, b, n), p), VisitsOf(added, p), VisitsOf(removed, p),
             Find(a, p), Find(b, p), p);
  }
}

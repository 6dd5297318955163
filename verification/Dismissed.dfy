/** Failing writes the caller dismisses, as the command line does with all of them. An
    extraction that remembers a file once it is written forgets such a file; one that
    remembers it when its write is handed out links later members of its hard link group to
    what the failing write left. When the two still end alike. */
module Dismissed {
  import opened Bytes
  import opened Extract

  function Early(bad: Faults): Faults {
    bad.(early := true)
  }

  function Late(bad: Faults): Faults {
    bad.(early := false)
  }

  /** A file that is handed to the pool and whose write fails without ending the extraction. */
  predicate Torn(items: seq<Item>, bad: Faults, d: nat) {
    d in bad.dismissed && Written(items, Early(bad), d)
  }

  ghost predicate AnyTorn(items: seq<Item>, bad: Faults) {
    exists d: nat :: Torn(items, bad, d)
  }

  /** A later member of the hard link group of item d. */
  predicate Follows(items: seq<Item>, d: nat, k: nat) {
    d < k < |items| && Leafy(items[k]) && items[k].hlid.Some? && items[k].hlid == items[d].hlid
  }

  /** Some torn file is followed by a member of its group. */
  ghost predicate Inherited(items: seq<Item>, bad: Faults) {
    exists d: nat, k: nat :: Torn(items, bad, d) && Follows(items, d, k)
  }

  // ---------------------------------------------------------------- what is written

  lemma WrittenLateToo(items: seq<Item>, bad: Faults, i: nat)
    requires Written(items, Early(bad), i)
    ensures Written(items, Late(bad), i)
  {
    if items[i].hlid.Some? {
      var h := items[i].hlid.value;
      var m := First(items, Late(bad), h, i);
      assert m < i ==> Member(items, Early(bad), h, m);
    }
  }

  lemma WrittenEarlyToo(items: seq<Item>, bad: Faults, i: nat)
    requires Written(items, Late(bad), i) && !Inherited(items, bad)
    ensures Written(items, Early(bad), i)
  {
    if items[i].hlid.Some? {
      var h := items[i].hlid.value;
      var m := First(items, Early(bad), h, i);
      if m < i {
        assert !Member(items, Late(bad), h, m);
        OriginOfFirst(items, Early(bad), h, i);
        assert Torn(items, bad, m) && Follows(items, m, i);
      }
    }
  }

  lemma FatalBoth(items: seq<Item>, bad: Faults, n: nat)
    ensures FatalFrom(items, Early(bad), n) ==> FatalFrom(items, Late(bad), n)
    ensures !Inherited(items, bad) ==> (FatalFrom(items, Early(bad), n) <==> FatalFrom(items, Late(bad), n))
  {
    if FatalFrom(items, Early(bad), n) {
      var i: nat :| n <= i && i in bad.fatal && Written(items, Early(bad), i);
      WrittenLateToo(items, bad, i);
    } else if FatalFrom(items, Late(bad), n) && !Inherited(items, bad) {
      var i: nat :| n <= i && i in bad.fatal && Written(items, Late(bad), i);
      WrittenEarlyToo(items, bad, i);
    }
  }

  // ---------------------------------------------------------------- the same tree

  ghost predicate Wanted(items: seq<Item>, n: nat, h: nat) {
    exists k :: n <= k < |items| && Leafy(items[k]) && items[k].hlid == Some(h)
  }

  predicate SameLink(a: map<nat, Path>, b: map<nat, Path>, h: nat) {
    (h in a <==> h in b) && (h in a ==> a[h] == b[h])
  }

  /** The same but for the counters, and for links nobody will ask for. */
  ghost predicate AlikeWalks(items: seq<Item>, a: Walk, b: Walk) {
    && a.next == b.next && a.pending == b.pending && a.status == b.status
    && forall h: nat :: Wanted(items, a.next, h) ==> SameLink(a.links, b.links, h)
  }

  ghost predicate Alike(items: seq<Item>, a: Serial, b: Serial) {
    a.tree == b.tree && AlikeWalks(items, a.walk, b.walk)
  }

  lemma SameTodo(items: seq<Item>, a: Walk, b: Walk)
    requires Valid(items, a) && Valid(items, b) && AlikeWalks(items, a, b)
    ensures Todo(items, a) == Todo(items, b)
  {
    if a.next < |items| && Leafy(items[a.next]) && items[a.next].hlid.Some? {
      assert Wanted(items, a.next, items[a.next].hlid.value);
    }
  }

  lemma AheadAlike(items: seq<Item>, bad: Faults, a: Walk, b: Walk)
    requires Valid(items, a) && Valid(items, b) && AlikeWalks(items, a, b) && Todo(items, a) == Todo(items, b)
    requires LinksKnown(items, Early(bad), a) && !Inherited(items, bad)
    ensures AlikeWalks(items, Ahead(items, Early(bad), a), Ahead(items, Late(bad), b))
  {
    var n, a', b' := a.next, Ahead(items, Early(bad), a), Ahead(items, Late(bad), b);
    WrittenNext(items, Early(bad), a);
    forall h: nat | Wanted(items, a'.next, h)
      ensures SameLink(a'.links, b'.links, h)
    {
      var k :| a'.next <= k < |items| && Leafy(items[k]) && items[k].hlid == Some(h);
      assert Wanted(items, n, h);
      if Todo(items, a).WriteFile? && n in bad.dismissed {
        assert Torn(items, bad, n);
        assert !Follows(items, n, k);
      }
    }
  }

  lemma {:induction false} EndAlike(items: seq<Item>, bad: Faults, a: Serial, b: Serial)
    requires Valid(items, a.walk) && Valid(items, b.walk) && Alike(items, a, b)
    requires a.walk.status.Going? ==> LinksKnown(items, Early(bad), a.walk)
    requires !Inherited(items, bad)
    ensures Alike(items, Serially(items, Early(bad), a), Serially(items, Late(bad), b))
    decreases Left(items, a.walk)
  {
    if a.walk.status.Going? {
      SameTodo(items, a.walk, b.walk);
      AheadAlike(items, bad, a.walk, b.walk);
      LinksKnownAhead(items, Early(bad), a.walk);
      EndAlike(items, bad, SerialStep(items, Early(bad), a), SerialStep(items, Late(bad), b));
    }
  }

  // ---------------------------------------------------------------- different trees

  /** A torn file with a later member of its group: that member ends up as the torn inode
      if the file was remembered early, and as another item's otherwise. */
  lemma HandedOn(items: seq<Item>, bad: Faults, d: nat, k: nat)
    requires Apart(items) && Torn(items, bad, d) && Follows(items, d, k)
    ensures Origin(items, Early(bad), k) == d
    ensures Made(items, Late(bad), Origin(items, Late(bad), k)) != Made(items, Early(bad), d)
  {
    var h := items[d].hlid.value;
    assert Member(items, Early(bad), h, d);
    var o := Origin(items, Late(bad), k);
    assert !Member(items, Late(bad), h, d);
    assert Leafy(items[o]) && Leafy(items[d]) && o != d;
    assert Loc(items[o].path) != Loc(items[d].path);
  }

  lemma TreesDiffer(items: seq<Item>, bad: Faults, a: Tree, b: Tree)
    requires Apart(items) && Inherited(items, bad)
    requires InPlace(items, Early(bad), a) && InPlace(items, Late(bad), b)
    ensures a != b
  {
    var d: nat, k: nat :| Torn(items, bad, d) && Follows(items, d, k);
    HandedOn(items, bad, d, k);
    var p := Loc(items[k].path);
    assert a[p] == Made(items, Early(bad), d);
    assert b[p] == Made(items, Late(bad), Origin(items, Late(bad), k));
  }

  // ---------------------------------------------------------------- the counters

  lemma LinksKnownFirst(items: seq<Item>, bad: Faults, t: Tree)
    ensures LinksKnown(items, bad, Start(t).walk)
  {
    forall h: nat
      ensures LinkKnown(items, bad, Start(t).walk, h)
    {
    }
  }

  function Counted(st: Stats): nat {
    st.dirs + st.files + st.links + st.others + st.unmatched
  }

  /** The files among the first n items that are written and not remembered. */
  function Forgotten(items: seq<Item>, bad: Faults, n: nat): (c: nat)
    requires n <= |items|
    ensures c <= n
    ensures c > 0 <==> exists i: nat :: i < n && Written(items, bad, i) && !Kept(items, bad, i)
  {
    if n == 0 then 0
    else Forgotten(items, bad, n - 1) + if Written(items, bad, n - 1) && !Kept(items, bad, n - 1) then 1 else 0
  }

  ghost predicate Accounted(items: seq<Item>, bad: Faults, w: Walk)
    requires Valid(items, w)
  {
    Counted(w.stats) + Forgotten(items, bad, w.next) == w.next
  }

  lemma AccountedAhead(items: seq<Item>, bad: Faults, w: Walk)
    requires Valid(items, w) && LinksKnown(items, bad, w) && Accounted(items, bad, w)
    ensures Accounted(items, bad, Ahead(items, bad, w))
  {
    WrittenNext(items, bad, w);
  }

  ghost predicate Books(items: seq<Item>, bad: Faults, w: Walk) {
    && Valid(items, w) && Accounted(items, bad, w)
    && (w.status.Going? ==> LinksKnown(items, bad, w))
    && (w.status.Finished? ==> w.next == |items|)
  }

  lemma BooksKept(items: seq<Item>, bad: Faults, s: Serial)
    requires Books(items, bad, s.walk) && s.walk.status.Going?
    ensures Books(items, bad, SerialStep(items, bad, s).walk)
  {
    AccountedAhead(items, bad, s.walk);
    LinksKnownAhead(items, bad, s.walk);
  }

  /** Every item is counted once, but for the files whose failing write was dismissed
      before they could be remembered. */
  lemma CountsAddUp(items: seq<Item>, bad: Faults, t: Tree)
    requires Serially(items, bad, Start(t)).walk.status.Finished?
    ensures Counted(Serially(items, bad, Start(t)).walk.stats) + Forgotten(items, bad, |items|) == |items|
  {
    LinksKnownFirst(items, bad, t);
    ghost var inv := (s: Serial) => Books(items, bad, s.walk);
    forall s: Serial | Valid(items, s.walk) && inv(s)
      ensures inv(SerialStep(items, bad, s))
    {
      if s.walk.status.Going? {
        BooksKept(items, bad, s);
      }
    }
    SerialInduction(items, bad, Start(t), inv);
  }

  // ---------------------------------------------------------------- the same run

  lemma {:induction false} SameRun(items: seq<Item>, bad: Faults, s: Serial)
    requires Valid(items, s.walk) && !AnyTorn(items, bad)
    requires s.walk.status.Going? ==> LinksKnown(items, Early(bad), s.walk)
    ensures Serially(items, Early(bad), s) == Serially(items, Late(bad), s)
    decreases Left(items, s.walk)
  {
    if s.walk.status.Going? {
      WrittenNext(items, Early(bad), s.walk);
      assert !Torn(items, bad, s.walk.next);
      LinksKnownAhead(items, Early(bad), s.walk);
      SameRun(items, bad, SerialStep(items, Early(bad), s));
    }
  }

  // ---------------------------------------------------------------- the comparison

  /** Remembering files early or late makes one extraction fail where the other does, unless
      a torn file is followed by a member of its group; that one may be written late. */
  lemma FailAlike(items: seq<Item>, bad: Faults, t: Tree)
    ensures var a, b := Serially(items, Early(bad), Start(t)), Serially(items, Late(bad), Start(t));
      && (a.walk.status.Failed? ==> b.walk.status.Failed?)
      && (!Inherited(items, bad) ==> a.walk.status == b.walk.status)
  {
    LinksKnownFirst(items, Early(bad), t);
    LinksKnownFirst(items, Late(bad), t);
    FailsIff(items, Early(bad), Start(t));
    FailsIff(items, Late(bad), Start(t));
    FatalBoth(items, bad, 0);
  }

  /** Where both end well, the trees are the same exactly when no torn file is followed by
      a member of its hard link group. */
  lemma SameTreeIff(items: seq<Item>, bad: Faults, t: Tree)
    requires Sane(items, t)
    requires Serially(items, Early(bad), Start(t)).walk.status.Finished?
    requires Serially(items, Late(bad), Start(t)).walk.status.Finished?
    ensures Serially(items, Early(bad), Start(t)).tree == Serially(items, Late(bad), Start(t)).tree
            <==> !Inherited(items, bad)
  {
    if Inherited(items, bad) {
      Restored(items, Early(bad), t);
      Restored(items, Late(bad), t);
      TreesDiffer(items, bad,
        Serially(items, Early(bad), Start(t)).tree, Serially(items, Late(bad), Start(t)).tree);
    } else {
      LinksKnownFirst(items, Early(bad), t);
      EndAlike(items, bad, Start(t), Start(t));
    }
  }

  lemma ForgottenIff(items: seq<Item>, bad: Faults)
    ensures Forgotten(items, Early(bad), |items|) == 0
    ensures AnyTorn(items, bad) ==> Forgotten(items, Late(bad), |items|) > 0
  {
    if AnyTorn(items, bad) {
      var d: nat :| Torn(items, bad, d);
      WrittenLateToo(items, bad, d);
    }
  }

  /** And tree, links and counters are the same exactly when no file is torn. */
  lemma SameEndIff(items: seq<Item>, bad: Faults, t: Tree)
    requires Serially(items, Early(bad), Start(t)).walk.status.Finished?
    requires Serially(items, Late(bad), Start(t)).walk.status.Finished?
    ensures Serially(items, Early(bad), Start(t)) == Serially(items, Late(bad), Start(t)) <==> !AnyTorn(items, bad)
  {
    LinksKnownFirst(items, Early(bad), t);
    LinksKnownFirst(items, Late(bad), t);
    if AnyTorn(items, bad) {
      ForgottenIff(items, bad);
      CountsAddUp(items, Early(bad), t);
      CountsAddUp(items, Late(bad), t);
    } else {
      SameRun(items, bad, Start(t));
    }
  }

  // ---------------------------------------------------------------- two files

  /** Two members of one hard link group. */
  const PAIR := [Item("a", Regular, Some(1), 0), Item("b", Regular, Some(1), 0)]
  const EMPTY: Tree := map["" := Dir(None)]
  const FIRST_TORN := Faults({}, {0}, false)

  lemma PairIsSane()
    ensures Sane(PAIR, EMPTY) && Torn(PAIR, FIRST_TORN, 0) && Follows(PAIR, 0, 1)
  {
    assert First(PAIR, Early(FIRST_TORN), 1, 0) == 0;
    assert ("a" + "/")[0] == 'a' && ("b" + "/")[0] == 'b' && ("" + "/")[0] == '/';
    assert !Inside("b", "a") && !Inside("a", "b");
  }

  /** The write of the first fails and is dismissed: remembered early, the second is a link
      to the broken file, and late, it is a whole file of its own. */
  lemma BrokenOrWhole(a: Serial, b: Serial)
    requires a == Serially(PAIR, Early(FIRST_TORN), Start(EMPTY)) && b == Serially(PAIR, Late(FIRST_TORN), Start(EMPTY))
    ensures a.walk.status.Finished? && b.walk.status.Finished? && "b" in a.tree && "b" in b.tree
    ensures a.tree["b"] == Leaf(PAIR[0], false) && b.tree["b"] == Leaf(PAIR[1], true)
  {
    PairIsSane();
    LinksKnownFirst(PAIR, Early(FIRST_TORN), EMPTY);
    LinksKnownFirst(PAIR, Late(FIRST_TORN), EMPTY);
    FailsIff(PAIR, Early(FIRST_TORN), Start(EMPTY));
    FailsIff(PAIR, Late(FIRST_TORN), Start(EMPTY));
    Restored(PAIR, Early(FIRST_TORN), EMPTY);
    Restored(PAIR, Late(FIRST_TORN), EMPTY);
    HandedOn(PAIR, FIRST_TORN, 0, 1);
    assert Origin(PAIR, Late(FIRST_TORN), 1) == 1;
  }
}

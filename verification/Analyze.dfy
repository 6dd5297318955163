/** What archives cost: the stored sizes of the chunk index, split by who refers to what. */
module Analyze {
  import opened Bytes
  import opened Store
  import opened Refs
  import opened Sums

  /** Plaintext and stored size of some chunks. */
  datatype Cost = Cost(source: int, stored: int)

  ghost function StoredSize(index: map<Id, nat>): Id -> int {
    id => if id in index then index[id] else 0
  }

  /** The largest size any reference gives a chunk. */
  function SizeIn(refs: seq<Ref>, id: Id): nat {
    if refs == [] then 0
    else
      var n, r := SizeIn(refs[..|refs| - 1], id), refs[|refs| - 1];
      if r.id == id && r.size > n then r.size else n
  }

  lemma {:induction false} SizeIsLargest(refs: seq<Ref>, id: Id)
    ensures forall r :: r in refs && r.id == id ==> r.size <= SizeIn(refs, id)
    ensures SizeIn(refs, id) == 0 || Ref(id, SizeIn(refs, id)) in refs
  {
    if refs != [] {
      var init, last := refs[..|refs| - 1], refs[|refs| - 1];
      SizeIsLargest(init, id);
      assert refs == init + [last];
    }
  }

  /** The order of the references does not matter to the size. */
  lemma SizeOfSame(a: seq<Ref>, b: seq<Ref>, id: Id)
    requires forall r :: r in a <==> r in b
    ensures SizeIn(a, id) == SizeIn(b, id)
  {
    SizeIsLargest(a, id);
    SizeIsLargest(b, id);
  }

  ghost function PlainSize(refs: seq<Ref>): Id -> int {
    id => SizeIn(refs, id)
  }

  ghost function CostOf(index: map<Id, nat>, refs: seq<Ref>, ids: set<Id>): Cost {
    Cost(Sum(ids, PlainSize(refs)), Sum(ids, StoredSize(index)))
  }

  lemma CostAdd(index: map<Id, nat>, refs: seq<Ref>, ids: set<Id>, id: Id)
    requires id !in ids && id in index
    ensures CostOf(index, refs, ids + {id})
      == Cost(CostOf(index, refs, ids).source + SizeIn(refs, id), CostOf(index, refs, ids).stored + index[id])
  {
    SumAdd(ids, PlainSize(refs), id);
    SumAdd(ids, StoredSize(index), id);
  }

  function IdsOf(refs: seq<Ref>): set<Id> {
    Refs.Ids(refs)
  }

  lemma IdsSnoc(refs: seq<Ref>, r: Ref)
    ensures IdsOf(refs + [r]) == IdsOf(refs) + {r.id}
  {
  }

  // ---------------------------------------------------------------- a set of archives against the rest

  datatype Marks = Marks(considered: bool, inRest: bool, size: nat)

  /** The records tell which indexed chunks either side refers to, and their sizes. */
  ghost predicate Marked(marks: map<Id, Marks>, index: map<Id, nat>, ours: seq<Ref>, rest: seq<Ref>) {
    forall id :: MarkedAt(marks, index, ours, rest, id)
  }

  lemma SizeSnoc(refs: seq<Ref>, r: Ref, id: Id)
    ensures SizeIn(refs + [r], id) == if r.id == id && r.size > SizeIn(refs, id) then r.size else SizeIn(refs, id)
  {
    assert (refs + [r])[..|refs|] == refs;
  }

  lemma {:induction false} SizeUnseen(refs: seq<Ref>, id: Id)
    requires id !in IdsOf(refs)
    ensures SizeIn(refs, id) == 0
  {
    SizeIsLargest(refs, id);
    assert Ref(id, SizeIn(refs, id)) in refs ==> Ref(id, SizeIn(refs, id)).id in IdsOf(refs);
  }

  /** A record with one more reference. */
  function Met(m: Marks, size: nat, rest: bool): Marks {
    Marks(m.considered || !rest, m.inRest || rest, if size > m.size then size else m.size)
  }

  ghost predicate MarkedAt(marks: map<Id, Marks>, index: map<Id, nat>, ours: seq<Ref>, rest: seq<Ref>, id: Id) {
    && (id in marks <==> id in index && (id in IdsOf(ours) || id in IdsOf(rest)))
    && (id in marks ==> marks[id] == Marks(id in IdsOf(ours), id in IdsOf(rest), SizeIn(ours + rest, id)))
  }

  function MarkOne(marks: map<Id, Marks>, index: map<Id, nat>, r: Ref, rest: bool): map<Id, Marks> {
    if r.id !in marks && r.id !in index then marks
    else marks[r.id := Met(if r.id in marks then marks[r.id] else Marks(false, false, 0), r.size, rest)]
  }

  lemma MarkOneAt(marks: map<Id, Marks>, index: map<Id, nat>, r: Ref, rest: bool, ours: seq<Ref>, theirs: seq<Ref>, id: Id)
    requires MarkedAt(marks, index, ours, theirs, id) && (!rest ==> theirs == [])
    ensures var marks' := MarkOne(marks, index, r, rest);
      if rest then MarkedAt(marks', index, ours, theirs + [r], id) else MarkedAt(marks', index, ours + [r], theirs, id)
  {
    IdsSnoc(if rest then theirs else ours, r);
    if rest {
      assert ours + (theirs + [r]) == ours + theirs + [r];
    } else {
      assert (ours + [r]) + theirs == ours + theirs + [r];
    }
    SizeSnoc(ours + theirs, r, id);
    if id !in IdsOf(ours) && id !in IdsOf(theirs) {
      assert id !in IdsOf(ours + theirs);
      SizeUnseen(ours + theirs, id);
    }
  }

  method Mark(marks: map<Id, Marks>, index: map<Id, nat>, r: Ref, rest: bool, ghost ours: seq<Ref>, ghost theirs: seq<Ref>)
      returns (marks': map<Id, Marks>)
    requires Marked(marks, index, ours, theirs) && (!rest ==> theirs == [])
    ensures if rest then Marked(marks', index, ours, theirs + [r]) else Marked(marks', index, ours + [r], theirs)
  {
    marks' := MarkOne(marks, index, r, rest);
    forall id
      ensures if rest then MarkedAt(marks', index, ours, theirs + [r], id)
        else MarkedAt(marks', index, ours + [r], theirs, id)
    {
      assert MarkedAt(marks, index, ours, theirs, id);
      MarkOneAt(marks, index, r, rest, ours, theirs, id);
    }
  }

  method MarkAll(marks: map<Id, Marks>, index: map<Id, nat>, refs: seq<Ref>, rest: bool, ghost ours: seq<Ref>)
      returns (marks': map<Id, Marks>)
    requires Marked(marks, index, if rest then ours else [], [])
    ensures Marked(marks', index, if rest then ours else refs, if rest then refs else [])
  {
    marks' := marks;
    for i := 0 to |refs|
      invariant Marked(marks', index, if rest then ours else refs[..i], if rest then refs[..i] else [])
    {
      assert refs[..i + 1] == refs[..i] + [refs[i]];
      marks' := Mark(marks', index, refs[i], rest, if rest then ours else refs[..i], if rest then refs[..i] else []);
    }
    assert refs[..|refs|] == refs;
  }

  datatype SetReport = SetReport(set_: Cost, exclusive: Cost, unrefStored: int, unrefCount: nat)

  /** Given the references of a set of archives and of all others: what the set costs, what
      deleting it would free, and what nothing refers to. */
  method AnalyzeSet(index: map<Id, nat>, ours: seq<Ref>, rest: seq<Ref>) returns (report: SetReport)
    ensures Totals(index, ours, rest, index.Keys, report)
  {
    MarkedNone(index);
    var marks := MarkAll(map[], index, ours, false, []);
    marks := MarkAll(marks, index, rest, true, ours);
    ghost var inv := (done: set<Id>, r: SetReport) => Totals(index, ours, rest, done, r);
    var step := (r: SetReport, id: Id) => TallyOne(marks, index, r, id);
    TotalsNone(index, ours, rest);
    forall done: set<Id>, r: SetReport, id: Id | inv(done, r) && id in index && id !in done
      ensures inv(done + {id}, step(r, id))
    {
      TallyStep(marks, index, ours, rest, done, r, id);
    }
    report := Iterate(index, SetReport(Cost(0, 0), Cost(0, 0), 0, 0), step, inv);
  }

  /** Over the chunks of the index, in whatever order they come. */
  method Iterate<R(!new)>(index: map<Id, nat>, zero: R, step: (R, Id) -> R, ghost inv: (set<Id>, R) -> bool) returns (r: R)
    requires inv({}, zero)
    requires forall done: set<Id>, q: R, id: Id {:trigger inv(done + {id}, step(q, id))} ::
      inv(done, q) && id in index && id !in done ==> inv(done + {id}, step(q, id))
    ensures inv(index.Keys, r)
  {
    r := zero;
    var todo := index.Keys;
    assert index.Keys - todo == {};
    while todo != {}
      invariant todo <= index.Keys
      invariant inv(index.Keys - todo, r)
      decreases |todo|
    {
      var id :| id in todo;
      ghost var done := index.Keys - todo;
      assert inv(done + {id}, step(r, id));
      assert index.Keys - (todo - {id}) == done + {id};
      r := step(r, id);
      todo := todo - {id};
    }
    assert index.Keys - {} == index.Keys;
  }

  function TallyOne(marks: map<Id, Marks>, index: map<Id, nat>, r: SetReport, id: Id): SetReport {
    if id in index then Tally(r, if id in marks then Some(marks[id]) else None, index[id]) else r
  }

  /** One chunk of the index, with what is recorded about it. */
  function Tally(r: SetReport, m: Option<Marks>, stored: int): SetReport {
    if m.None? || (!m.value.considered && !m.value.inRest) then
      r.(unrefStored := r.unrefStored + stored, unrefCount := r.unrefCount + 1)
    else if m.value.considered then
      var r' := r.(set_ := More(r.set_, m.value.size, stored));
      if m.value.inRest then r' else r'.(exclusive := More(r'.exclusive, m.value.size, stored))
    else r
  }

  lemma TotalsNone(index: map<Id, nat>, ours: seq<Ref>, rest: seq<Ref>)
    ensures Totals(index, ours, rest, {}, SetReport(Cost(0, 0), Cost(0, 0), 0, 0))
  {
    var x, y := IdsOf(ours), IdsOf(rest);
    assert {} * x == {} && {} * x - y == {} && {} - x - y == {};
  }

  lemma MarkedNone(index: map<Id, nat>)
    ensures Marked(map[], index, [], [])
  {
    assert IdsOf([]) == {};
  }

  lemma TallyStep(
      marks: map<Id, Marks>, index: map<Id, nat>, ours: seq<Ref>, rest: seq<Ref>, done: set<Id>, r: SetReport, id: Id)
    requires Marked(marks, index, ours, rest) && Totals(index, ours, rest, done, r) && id in index && id !in done
    ensures Totals(index, ours, rest, done + {id}, TallyOne(marks, index, r, id))
  {
    assert MarkedAt(marks, index, ours, rest, id);
    TotalsStep(index, ours, rest, done, r, id);
  }

  function More(c: Cost, source: int, stored: int): Cost {
    Cost(c.source + source, c.stored + stored)
  }

  /** A report over part of the index. */
  ghost predicate Totals(index: map<Id, nat>, ours: seq<Ref>, rest: seq<Ref>, keys: set<Id>, report: SetReport) {
    && report.set_ == CostOf(index, ours + rest, keys * IdsOf(ours))
    && report.exclusive == CostOf(index, ours + rest, keys * IdsOf(ours) - IdsOf(rest))
    && report.unrefStored == CostOf(index, ours + rest, keys - IdsOf(ours) - IdsOf(rest)).stored
    && report.unrefCount == |keys - IdsOf(ours) - IdsOf(rest)|
  }

  lemma OursStep(index: map<Id, nat>, all: seq<Ref>, x: set<Id>, y: set<Id>, done: set<Id>, c: Cost, e: Cost, id: Id)
    requires id in index && id !in done
    requires c == CostOf(index, all, done * x) && e == CostOf(index, all, done * x - y)
    ensures CostOf(index, all, (done + {id}) * x) == if id in x then More(c, SizeIn(all, id), index[id]) else c
    ensures CostOf(index, all, (done + {id}) * x - y)
      == if id in x && id !in y then More(e, SizeIn(all, id), index[id]) else e
  {
    Taken(done, id, x, y);
    CostStep(index, all, done * x, (done + {id}) * x, id in x, id);
    CostStep(index, all, done * x - y, (done + {id}) * x - y, id in x && id !in y, id);
  }

  lemma UnrefStep(index: map<Id, nat>, all: seq<Ref>, x: set<Id>, y: set<Id>, done: set<Id>, id: Id)
    requires id in index && id !in done
    ensures var before, after, added := done - x - y, done + {id} - x - y, id !in x && id !in y;
      && |after| == (if added then |before| + 1 else |before|)
      && CostOf(index, all, after).stored
         == CostOf(index, all, before).stored + if added then index[id] else 0
  {
    Taken(done, id, x, y);
    CostStep(index, all, done - x - y, done + {id} - x - y, id !in x && id !in y, id);
  }

  lemma TotalsStep(index: map<Id, nat>, ours: seq<Ref>, rest: seq<Ref>, done: set<Id>, r: SetReport, id: Id)
    requires Totals(index, ours, rest, done, r) && id in index && id !in done
    ensures var size, in1, in2 := SizeIn(ours + rest, id), id in IdsOf(ours), id in IdsOf(rest);
      Totals(index, ours, rest, done + {id}, SetReport(
        if in1 then More(r.set_, size, index[id]) else r.set_,
        if in1 && !in2 then More(r.exclusive, size, index[id]) else r.exclusive,
        if in1 || in2 then r.unrefStored else r.unrefStored + index[id],
        if in1 || in2 then r.unrefCount else r.unrefCount + 1))
  {
    OursStep(index, ours + rest, IdsOf(ours), IdsOf(rest), done, r.set_, r.exclusive, id);
    UnrefStep(index, ours + rest, IdsOf(ours), IdsOf(rest), done, id);
  }

  lemma CostStep(index: map<Id, nat>, refs: seq<Ref>, ids: set<Id>, after: set<Id>, added: bool, id: Id)
    requires id !in ids && id in index && after == if added then ids + {id} else ids
    ensures var c := CostOf(index, refs, ids);
      CostOf(index, refs, after) == if added then More(c, SizeIn(refs, id), index[id]) else c
  {
    if added {
      CostAdd(index, refs, ids, id);
    }
  }

  lemma Taken(done: set<Id>, id: Id, a: set<Id>, b: set<Id>)
    requires id !in done
    ensures (done + {id}) * a == if id in a then done * a + {id} else done * a
    ensures (done + {id}) * a - b == if id in a && id !in b then done * a - b + {id} else done * a - b
    ensures (done + {id}) - a - b == if id in a || id in b then done - a - b else done - a - b + {id}
  {
  }

  /** Once the set is deleted, what no archive refers to any more is what nothing referred
      to and what only the set did, and those do not overlap: the two sizes reported add up
      to what a compaction can then free. */
  lemma FreedByDeleting(index: map<Id, nat>, ours: seq<Ref>, rest: seq<Ref>)
    ensures var keys := index.Keys;
      var unref, exclusive := keys - IdsOf(ours) - IdsOf(rest), keys * IdsOf(ours) - IdsOf(rest);
      && unref !! exclusive && unref + exclusive == keys - IdsOf(rest)
      && Sum(keys - IdsOf(rest), StoredSize(index)) == Sum(unref, StoredSize(index)) + Sum(exclusive, StoredSize(index))
  {
    var keys := index.Keys;
    var unref, exclusive := keys - IdsOf(ours) - IdsOf(rest), keys * IdsOf(ours) - IdsOf(rest);
    assert unref + exclusive == keys - IdsOf(rest);
    SumUnion(unref, exclusive, StoredSize(index));
  }

  /** The references of the archives that can be read, one archive after the other. */
  ghost function WalkAll(w: Walker, infos: seq<Info>): seq<Ref> {
    if infos == [] then []
    else
      var rest, info := WalkAll(w, infos[..|infos| - 1]), infos[|infos| - 1];
      if Readable(w, info) then rest + w(info.id).value else rest
  }

  lemma {:induction false} WalkAllCovers(w: Walker, infos: seq<Info>)
    ensures IdsOf(WalkAll(w, infos)) == Covered(w, infos)
  {
    if infos != [] {
      var init, info := infos[..|infos| - 1], infos[|infos| - 1];
      WalkAllCovers(w, init);
      if Readable(w, info) {
        assert IdsOf(WalkAll(w, init) + w(info.id).value) == IdsOf(WalkAll(w, init)) + IdsOf(w(info.id).value);
      }
    }
  }

  /** What the report calls exclusive and unreferenced is what a compaction finds unused
      once the archives of the set are gone. */
  lemma ReportIsWhatIsFreed(index: map<Id, nat>, w: Walker, ours: seq<Info>, rest: seq<Info>, report: SetReport)
    requires Totals(index, WalkAll(w, ours), WalkAll(w, rest), index.Keys, report)
    ensures report.unrefStored + report.exclusive.stored == Sum(index.Keys - Covered(w, rest), StoredSize(index))
  {
    WalkAllCovers(w, rest);
    FreedByDeleting(index, WalkAll(w, ours), WalkAll(w, rest));
  }

  // ---------------------------------------------------------------- by archive name

  /** One reference met on the walk of an archive of that name. */
  datatype Mention = Mention(name: string, ref: Ref)

  /** The names of the archives that refer to a chunk. */
  function NamesOf(seen: seq<Mention>, id: Id): set<string> {
    set m | m in seen && m.ref.id == id :: m.name
  }

  function RefsOf(seen: seq<Mention>): (refs: seq<Ref>)
    ensures |refs| == |seen|
  {
    seq(|seen|, i requires 0 <= i < |seen| => seen[i].ref)
  }

  datatype Bucket = Unreferenced | Exclusive(name: string) | Shared

  /** Where a chunk belongs: nowhere, with the one name that refers to it, or with several. */
  ghost predicate Belongs(seen: seq<Mention>, id: Id, b: Bucket) {
    match b
    case Unreferenced => NamesOf(seen, id) == {}
    case Exclusive(name) => NamesOf(seen, id) == {name}
    case Shared => exists m, n :: m in NamesOf(seen, id) && n in NamesOf(seen, id) && m != n
  }

  /** Each chunk belongs in exactly one place. */
  lemma BelongsOnce(seen: seq<Mention>, id: Id)
    ensures exists b :: Belongs(seen, id, b)
    ensures forall b, c :: Belongs(seen, id, b) && Belongs(seen, id, c) ==> b == c
  {
    var names := NamesOf(seen, id);
    if names == {} {
      assert Belongs(seen, id, Unreferenced);
    } else {
      var m :| m in names;
      if names == {m} {
        assert Belongs(seen, id, Exclusive(m));
      } else {
        assert exists n :: n in names && n != m;
        assert Belongs(seen, id, Shared);
      }
    }
  }

  /** Neither place nor size depends on the order in which archives and references are walked. */
  lemma OrderDoesNotMatter(s: seq<Mention>, t: seq<Mention>, id: Id, b: Bucket)
    requires forall m :: m in s <==> m in t
    ensures Belongs(s, id, b) <==> Belongs(t, id, b)
    ensures SizeIn(RefsOf(s), id) == SizeIn(RefsOf(t), id)
  {
    assert NamesOf(s, id) == NamesOf(t, id);
    forall r
      ensures r in RefsOf(s) <==> r in RefsOf(t)
    {
      if r in RefsOf(s) {
        var i :| 0 <= i < |s| && RefsOf(s)[i] == r;
        assert s[i] in t;
        var j :| 0 <= j < |t| && t[j] == s[i];
        assert RefsOf(t)[j] == r;
      }
      if r in RefsOf(t) {
        var i :| 0 <= i < |t| && RefsOf(t)[i] == r;
        assert t[i] in s;
        var j :| 0 <= j < |s| && s[j] == t[i];
        assert RefsOf(s)[j] == r;
      }
    }
    SizeOfSame(RefsOf(s), RefsOf(t), id);
  }

  /** What is recorded about a chunk: the first name to refer to it, and whether another did. */
  datatype Owned = Owned(owner: string, multi: bool, size: nat)

  ghost predicate OwnedAt(refs: map<Id, Owned>, index: map<Id, nat>, seen: seq<Mention>, id: Id) {
    && (id in refs <==> id in index && NamesOf(seen, id) != {})
    && (id in refs ==>
         && refs[id].owner in NamesOf(seen, id) && refs[id].size == SizeIn(RefsOf(seen), id)
         && (refs[id].multi <==> exists n :: n in NamesOf(seen, id) && n != refs[id].owner))
  }

  function OwnOne(refs: map<Id, Owned>, index: map<Id, nat>, m: Mention): map<Id, Owned> {
    var id, size := m.ref.id, m.ref.size;
    if id in refs then
      var r := refs[id];
      refs[id := Owned(r.owner, r.multi || r.owner != m.name, if size > r.size then size else r.size)]
    else if id in index then refs[id := Owned(m.name, false, size)]
    else refs
  }

  lemma NamesSnoc(seen: seq<Mention>, m: Mention, id: Id)
    ensures NamesOf(seen + [m], id) == if m.ref.id == id then NamesOf(seen, id) + {m.name} else NamesOf(seen, id)
  {
  }

  lemma OwnOneAt(refs: map<Id, Owned>, index: map<Id, nat>, seen: seq<Mention>, m: Mention, id: Id)
    requires OwnedAt(refs, index, seen, id)
    ensures OwnedAt(OwnOne(refs, index, m), index, seen + [m], id)
  {
    NamesSnoc(seen, m, id);
    assert RefsOf(seen + [m]) == RefsOf(seen) + [m.ref];
    SizeSnoc(RefsOf(seen), m.ref, id);
    if NamesOf(seen, id) == {} {
      forall r | r in RefsOf(seen)
        ensures r.id != id
      {
        var i :| 0 <= i < |seen| && RefsOf(seen)[i] == r;
        assert seen[i].name in NamesOf(seen, r.id);
      }
      SizeUnseen(RefsOf(seen), id);
    }
  }

  datatype Archived = Archived(name: string, refs: seq<Ref>)

  /** The references of all archives, one after the other. */
  function Mentions(archives: seq<Archived>): seq<Mention> {
    if archives == [] then []
    else Mentions(archives[..|archives| - 1]) + Under(archives[|archives| - 1].name, archives[|archives| - 1].refs)
  }

  function Under(name: string, refs: seq<Ref>): (ms: seq<Mention>)
    ensures |ms| == |refs|
  {
    seq(|refs|, i requires 0 <= i < |refs| => Mention(name, refs[i]))
  }

  ghost predicate AllOwned(refs: map<Id, Owned>, index: map<Id, nat>, seen: seq<Mention>) {
    forall id :: OwnedAt(refs, index, seen, id)
  }

  lemma AllOwnedSnoc(refs: map<Id, Owned>, index: map<Id, nat>, seen: seq<Mention>, m: Mention)
    requires AllOwned(refs, index, seen)
    ensures AllOwned(OwnOne(refs, index, m), index, seen + [m])
  {
    forall id
      ensures OwnedAt(OwnOne(refs, index, m), index, seen + [m], id)
    {
      assert OwnedAt(refs, index, seen, id);
      OwnOneAt(refs, index, seen, m, id);
    }
  }

  method OwnAll(index: map<Id, nat>, archives: seq<Archived>) returns (refs: map<Id, Owned>)
    ensures AllOwned(refs, index, Mentions(archives))
  {
    refs := map[];
    ghost var seen: seq<Mention> := [];
    assert forall id :: NamesOf([], id) == {};
    for i := 0 to |archives|
      invariant seen == Mentions(archives[..i]) && AllOwned(refs, index, seen)
    {
      var a := archives[i];
      ghost var before := seen;
      for j := 0 to |a.refs|
        invariant seen == before + Under(a.name, a.refs[..j]) && AllOwned(refs, index, seen)
      {
        var m := Mention(a.name, a.refs[j]);
        AllOwnedSnoc(refs, index, seen, m);
        assert Under(a.name, a.refs[..j + 1]) == Under(a.name, a.refs[..j]) + [m];
        refs, seen := OwnOne(refs, index, m), seen + [m];
      }
      assert a.refs[..|a.refs|] == a.refs;
      assert archives[..i + 1][..i] == archives[..i];
    }
    assert archives[..|archives|] == archives;
  }

  /** Where the record puts a chunk. */
  function BucketOf(refs: map<Id, Owned>, id: Id): Bucket {
    if id !in refs then Unreferenced else if refs[id].multi then Shared else Exclusive(refs[id].owner)
  }

  lemma BucketIsRight(refs: map<Id, Owned>, index: map<Id, nat>, seen: seq<Mention>, id: Id)
    requires OwnedAt(refs, index, seen, id) && id in index
    ensures Belongs(seen, id, BucketOf(refs, id))
  {
    if id in refs && !refs[id].multi {
      assert NamesOf(seen, id) == {refs[id].owner};
    }
  }

  /** The chunks of some set that belong somewhere. */
  ghost function In(seen: seq<Mention>, ids: set<Id>, b: Bucket): set<Id> {
    set id | id in ids && Belongs(seen, id, b)
  }

  lemma InNext(seen: seq<Mention>, ids: set<Id>, id: Id, b: Bucket, c: Bucket)
    requires id in ids && Belongs(seen, id, b)
    ensures id !in In(seen, ids - {id}, c)
    ensures In(seen, ids, c) == if c == b then In(seen, ids - {id}, c) + {id} else In(seen, ids - {id}, c)
  {
    BelongsOnce(seen, id);
    forall i | i in ids
      ensures i in In(seen, ids, c) <==> i in In(seen, ids - {id}, c) || (c == b && i == id)
    {
    }
  }

  ghost function BucketSum(index: map<Id, nat>, seen: seq<Mention>, ids: set<Id>, b: Bucket): int {
    Sum(In(seen, ids, b), StoredSize(index))
  }

  lemma BucketSumNext(index: map<Id, nat>, seen: seq<Mention>, ids: set<Id>, id: Id, b: Bucket, c: Bucket)
    requires id in ids && Belongs(seen, id, b)
    ensures BucketSum(index, seen, ids, c)
      == BucketSum(index, seen, ids - {id}, c) + if c == b then StoredSize(index)(id) else 0
  {
    InNext(seen, ids, id, b, c);
    if c == b {
      SumAdd(In(seen, ids - {id}, c), StoredSize(index), id);
    }
  }

  ghost function Row(index: map<Id, nat>, seen: seq<Mention>, ids: set<Id>): string -> int {
    n => BucketSum(index, seen, ids, Exclusive(n))
  }

  lemma RowsNext(index: map<Id, nat>, seen: seq<Mention>, names: set<string>, ids: set<Id>, id: Id, b: Bucket)
    requires id in ids && Belongs(seen, id, b) && (b.Exclusive? ==> b.name in names)
    ensures Sum(names, Row(index, seen, ids))
      == Sum(names, Row(index, seen, ids - {id})) + if b.Exclusive? then StoredSize(index)(id) else 0
  {
    var f, g := Row(index, seen, ids), Row(index, seen, ids - {id});
    forall n
      ensures f(n) == g(n) + if Exclusive(n) == b then StoredSize(index)(id) else 0
    {
      BucketSumNext(index, seen, ids, id, b, Exclusive(n));
    }
    if b.Exclusive? {
      SumTake(names, f, b.name);
      SumTake(names, g, b.name);
      SumSame(names - {b.name}, f, g);
    } else {
      SumSame(names, f, g);
    }
  }

  /** The stored sizes of all rows, of the shared and of the unreferenced chunks add up to
      the whole index. */
  lemma {:induction false} RowsPartition(index: map<Id, nat>, seen: seq<Mention>, names: set<string>, ids: set<Id>)
    requires forall id, n :: id in ids && n in NamesOf(seen, id) ==> n in names
    ensures Sum(names, Row(index, seen, ids)) + BucketSum(index, seen, ids, Shared)
      + BucketSum(index, seen, ids, Unreferenced) == Sum(ids, StoredSize(index))
    decreases |ids|
  {
    if ids == {} {
      RowsOfNone(index, seen, names);
    } else {
      var id :| id in ids;
      BelongsOnce(seen, id);
      var b :| Belongs(seen, id, b);
      if b.Exclusive? {
        assert b.name in NamesOf(seen, id);
      }
      RowsPartition(index, seen, names, ids - {id});
      RowsNext(index, seen, names, ids, id, b);
      BucketSumNext(index, seen, ids, id, b, Shared);
      BucketSumNext(index, seen, ids, id, b, Unreferenced);
      SumTake(ids, StoredSize(index), id);
    }
  }

  lemma RowsOfNone(index: map<Id, nat>, seen: seq<Mention>, names: set<string>)
    ensures Sum(names, Row(index, seen, {})) == 0
    ensures forall b :: BucketSum(index, seen, {}, b) == 0
  {
    forall b
      ensures BucketSum(index, seen, {}, b) == 0
    {
      assert In(seen, {}, b) == {};
    }
    SumSame(names, Row(index, seen, {}), _ => 0);
    SumOfNothing(names);
  }

  lemma {:induction false} SumOfNothing<K>(s: set<K>)
    ensures Sum(s, _ => 0) == 0
    decreases |s|
  {
    if s != {} {
      var k :| k in s;
      SumTake(s, _ => 0, k);
      SumOfNothing(s - {k});
    }
  }

  // ---------------------------------------------------------------- the report by name

  datatype NameReport = NameReport(exclusive: map<string, Cost>, shared: Cost, unrefStored: int, unrefCount: nat)

  /** A report over part of the index. */
  ghost predicate Rows(index: map<Id, nat>, seen: seq<Mention>, names: set<string>, ids: set<Id>, r: NameReport) {
    && r.exclusive.Keys == names
    && (forall n :: n in names ==> r.exclusive[n] == CostOf(index, RefsOf(seen), In(seen, ids, Exclusive(n))))
    && r.shared == CostOf(index, RefsOf(seen), In(seen, ids, Shared))
    && r.unrefStored == CostOf(index, RefsOf(seen), In(seen, ids, Unreferenced)).stored
    && r.unrefCount == |In(seen, ids, Unreferenced)|
  }

  function Credit(refs: map<Id, Owned>, index: map<Id, nat>, r: NameReport, id: Id): NameReport {
    if id !in index then r
    else
      match BucketOf(refs, id)
      case Unreferenced => r.(unrefStored := r.unrefStored + index[id], unrefCount := r.unrefCount + 1)
      case Shared => if id in refs then r.(shared := More(r.shared, refs[id].size, index[id])) else r
      case Exclusive(n) =>
        if id in refs && n in r.exclusive then
          r.(exclusive := r.exclusive[n := More(r.exclusive[n], refs[id].size, index[id])])
        else r
  }

  /** What one chunk adds to what stands under a bucket. */
  lemma BucketStep(index: map<Id, nat>, seen: seq<Mention>, done: set<Id>, id: Id, b: Bucket, c: Bucket)
    requires id in index && id !in done && Belongs(seen, id, b)
    ensures var cost := CostOf(index, RefsOf(seen), In(seen, done, c));
      CostOf(index, RefsOf(seen), In(seen, done + {id}, c))
      == if b == c then More(cost, SizeIn(RefsOf(seen), id), index[id]) else cost
    ensures |In(seen, done + {id}, c)| == |In(seen, done, c)| + if b == c then 1 else 0
  {
    InNext(seen, done + {id}, id, b, c);
    assert done + {id} - {id} == done;
    CostStep(index, RefsOf(seen), In(seen, done, c), In(seen, done + {id}, c), b == c, id);
  }

  lemma CreditStep(
      refs: map<Id, Owned>, index: map<Id, nat>, seen: seq<Mention>, names: set<string>, done: set<Id>, r: NameReport, id: Id)
    requires AllOwned(refs, index, seen) && Rows(index, seen, names, done, r) && id in index && id !in done
    requires NamesOf(seen, id) <= names
    ensures Rows(index, seen, names, done + {id}, Credit(refs, index, r, id))
  {
    assert OwnedAt(refs, index, seen, id);
    BucketIsRight(refs, index, seen, id);
    var b := BucketOf(refs, id);
    BucketStep(index, seen, done, id, b, Shared);
    BucketStep(index, seen, done, id, b, Unreferenced);
    forall n | n in names
      ensures Credit(refs, index, r, id).exclusive[n] == CostOf(index, RefsOf(seen), In(seen, done + {id}, Exclusive(n)))
    {
      BucketStep(index, seen, done, id, b, Exclusive(n));
    }
  }

  lemma RowsNone(index: map<Id, nat>, seen: seq<Mention>, names: set<string>)
    ensures Rows(index, seen, names, {}, NameReport(map n | n in names :: Cost(0, 0), Cost(0, 0), 0, 0))
  {
    forall b: Bucket
      ensures CostOf(index, RefsOf(seen), In(seen, {}, b)) == Cost(0, 0) && In(seen, {}, b) == {}
    {
      assert In(seen, {}, b) == {};
    }
  }

  function Names(archives: seq<Archived>): set<string> {
    set a | a in archives :: a.name
  }

  lemma {:induction false} MentionedAreNamed(archives: seq<Archived>, id: Id)
    ensures NamesOf(Mentions(archives), id) <= Names(archives)
  {
    if archives != [] {
      var init, last := archives[..|archives| - 1], archives[|archives| - 1];
      MentionedAreNamed(init, id);
      assert archives == init + [last];
      forall m | m in Mentions(archives) && m.ref.id == id
        ensures m.name in Names(archives)
      {
        if m in Mentions(init) {
          assert m.name in NamesOf(Mentions(init), id);
        } else {
          assert m in Under(last.name, last.refs) && last in archives;
        }
      }
    }
  }

  /** For every name what only archives of that name refer to, then what several names
      refer to, then what none does. */
  method AnalyzeByName(index: map<Id, nat>, archives: seq<Archived>) returns (report: NameReport)
    ensures Rows(index, Mentions(archives), Names(archives), index.Keys, report)
  {
    var refs := OwnAll(index, archives);
    var names := Names(archives);
    var zero := NameReport(map n | n in names :: Cost(0, 0), Cost(0, 0), 0, 0);
    ghost var seen := Mentions(archives);
    ghost var inv := (done: set<Id>, r: NameReport) => Rows(index, seen, names, done, r);
    var step := (r: NameReport, id: Id) => Credit(refs, index, r, id);
    RowsNone(index, seen, names);
    forall done: set<Id>, r: NameReport, id: Id | inv(done, r) && id in index && id !in done
      ensures inv(done + {id}, step(r, id))
    {
      MentionedAreNamed(archives, id);
      CreditStep(refs, index, seen, names, done, r, id);
    }
    report := Iterate(index, zero, step, inv);
  }

  /** The report accounts for the whole index. */
  lemma ReportAddsUp(index: map<Id, nat>, archives: seq<Archived>, report: NameReport)
    requires Rows(index, Mentions(archives), Names(archives), index.Keys, report)
    ensures Sum(Names(archives), n => if n in report.exclusive then report.exclusive[n].stored else 0)
      + report.shared.stored + report.unrefStored == Sum(index.Keys, StoredSize(index))
  {
    var seen := Mentions(archives);
    forall id | id in index
      ensures NamesOf(seen, id) <= Names(archives)
    {
      MentionedAreNamed(archives, id);
    }
    RowsPartition(index, seen, Names(archives), index.Keys);
    SumSame(Names(archives), Row(index, seen, index.Keys),
            n => if n in report.exclusive then report.exclusive[n].stored else 0);
  }

  // ---------------------------------------------------------------- the order of a walk

  lemma BucketOrder(index: map<Id, nat>, s: seq<Mention>, t: seq<Mention>, b: Bucket)
    requires forall m :: m in s <==> m in t
    ensures In(s, index.Keys, b) == In(t, index.Keys, b)
    ensures CostOf(index, RefsOf(s), In(s, index.Keys, b)) == CostOf(index, RefsOf(t), In(t, index.Keys, b))
  {
    forall id: Id
      ensures Belongs(s, id, b) <==> Belongs(t, id, b)
      ensures PlainSize(RefsOf(s))(id) == PlainSize(RefsOf(t))(id)
    {
      OrderDoesNotMatter(s, t, id, b);
    }
    assert In(s, index.Keys, b) == In(t, index.Keys, b);
    SumSame(In(s, index.Keys, b), PlainSize(RefsOf(s)), PlainSize(RefsOf(t)));
  }

  /** The report is the same for archives that mention the same chunks under the same names. */
  lemma SameReport(index: map<Id, nat>, a: seq<Archived>, b: seq<Archived>, r: NameReport, q: NameReport)
    requires (forall m :: m in Mentions(a) <==> m in Mentions(b)) && Names(a) == Names(b)
    requires Rows(index, Mentions(a), Names(a), index.Keys, r) && Rows(index, Mentions(b), Names(b), index.Keys, q)
    ensures r == q
  {
    forall c: Bucket
      ensures In(Mentions(a), index.Keys, c) == In(Mentions(b), index.Keys, c)
      ensures CostOf(index, RefsOf(Mentions(a)), In(Mentions(a), index.Keys, c))
        == CostOf(index, RefsOf(Mentions(b)), In(Mentions(b), index.Keys, c))
    {
      BucketOrder(index, Mentions(a), Mentions(b), c);
    }
    assert r.exclusive == q.exclusive;
  }

  ghost predicate Refers(x: Archived, m: Mention) {
    x.name == m.name && m.ref in x.refs
  }

  lemma {:induction false} MentionedBy(archives: seq<Archived>, m: Mention)
    ensures m in Mentions(archives) <==> exists x :: x in archives && Refers(x, m)
  {
    if archives != [] {
      var init, last := archives[..|archives| - 1], archives[|archives| - 1];
      MentionedBy(init, m);
      assert archives == init + [last];
      var under := Under(last.name, last.refs);
      if Refers(last, m) {
        var i :| 0 <= i < |last.refs| && last.refs[i] == m.ref;
        assert under[i] == m;
      }
    }
  }

  /** The same archive, walked in another order. */
  ghost predicate Rewalked(x: Archived, y: Archived) {
    x.name == y.name && multiset(x.refs) == multiset(y.refs)
  }

  ghost predicate Listed(a: seq<Archived>, b: seq<Archived>) {
    forall x :: x in a ==> exists y :: y in b && Rewalked(x, y)
  }

  lemma ListedMentions(a: seq<Archived>, b: seq<Archived>, m: Mention)
    requires Listed(a, b) && m in Mentions(a)
    ensures m in Mentions(b)
  {
    MentionedBy(a, m);
    MentionedBy(b, m);
    var x :| x in a && Refers(x, m);
    var y :| y in b && Rewalked(x, y);
    assert m.ref in multiset(x.refs);
    assert Refers(y, m);
  }

  lemma ListedNames(a: seq<Archived>, b: seq<Archived>)
    requires Listed(a, b)
    ensures Names(a) <= Names(b)
  {
    forall n | n in Names(a)
      ensures n in Names(b)
    {
      var x :| x in a && x.name == n;
      var y :| y in b && Rewalked(x, y);
      assert y.name == n;
    }
  }

  /** Nor does it matter in which order the archives are listed and each is walked. */
  lemma ReportIgnoresOrder(index: map<Id, nat>, a: seq<Archived>, b: seq<Archived>, r: NameReport, q: NameReport)
    requires Listed(a, b) && Listed(b, a)
    requires Rows(index, Mentions(a), Names(a), index.Keys, r) && Rows(index, Mentions(b), Names(b), index.Keys, q)
    ensures r == q
  {
    forall m
      ensures m in Mentions(a) <==> m in Mentions(b)
    {
      if m in Mentions(a) {
        ListedMentions(a, b, m);
      }
      if m in Mentions(b) {
        ListedMentions(b, a, m);
      }
    }
    ListedNames(a, b);
    ListedNames(b, a);
    SameReport(index, a, b, r, q);
  }
}

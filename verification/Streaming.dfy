/** Reading values from a stream that arrives in arbitrary pieces, for any decoder whose
    answers are final, and finding the way back after a gap, for any judgement of offsets
    whose answers are final. */
module Streaming {
  import opened Bytes

  datatype Decoded<+V> = Ok(value: V, used: nat) | Short | Corrupt

  type Decoder<!V> = bytes -> Decoded<V>

  ghost predicate DecodesOn<V>(dec: Decoder<V>, s: bytes, more: bytes) {
    && (dec(s).Ok? ==> 0 < dec(s).used <= |s|)
    && (!dec(s).Short? ==> dec(s + more) == dec(s))
  }

  /** What reading in pieces needs of a decoder: it consumes something, and whatever it has
      decoded or found corrupt stays so when more input arrives. */
  ghost predicate Streams<V>(dec: Decoder<V>) {
    forall s, more :: DecodesOn(dec, s, more)
  }

  // ---------------------------------------------------------------- plain reading

  /** The values decoded until the input ends, ends inside a value, or is corrupt. */
  datatype Drained<V> = Drained(values: seq<V>, rest: bytes, corrupt: bool)

  ghost function Drain<V>(dec: Decoder<V>, p: bytes): (d: Drained<V>)
    requires Streams(dec)
    decreases |p|
  {
    assert DecodesOn(dec, p, []);
    match dec(p)
    case Short => Drained([], p, false)
    case Corrupt => Drained([], p, true)
    case Ok(v, used) =>
      var d := Drain(dec, p[used..]);
      d.(values := [v] + d.values)
  }

  /** Reading on after `first`. */
  ghost function Then<V>(first: Drained<V>, second: Drained<V>): Drained<V> {
    second.(values := first.values + second.values)
  }

  lemma DrainOne<V>(dec: Decoder<V>, v: V, e: bytes, rest: bytes)
    requires Streams(dec) && dec(e + rest) == Ok(v, |e|)
    ensures var d := Drain(dec, rest); Drain(dec, e + rest) == d.(values := [v] + d.values)
  {
    assert (e + rest)[|e|..] == rest;
  }

  /** `e` reads as `v`, whatever follows it. */
  ghost predicate Encodes<V>(dec: Decoder<V>, v: V, e: bytes) {
    forall rest :: dec(e + rest) == Ok(v, |e|)
  }

  lemma EncodesSnoc<V>(dec: Decoder<V>, vs: seq<V>, es: seq<bytes>, v: V, e: bytes)
    requires EncodesAll(dec, vs, es) && Encodes(dec, v, e)
    ensures EncodesAll(dec, vs + [v], es + [e])
  {
    forall k | 0 <= k < |vs| + 1
      ensures Encodes(dec, (vs + [v])[k], (es + [e])[k])
    {
      if k < |vs| {
        assert Encodes(dec, vs[k], es[k]);
      }
    }
  }

  ghost predicate EncodesAll<V>(dec: Decoder<V>, vs: seq<V>, es: seq<bytes>) {
    |vs| == |es| && forall k :: 0 <= k < |vs| ==> Encodes(dec, vs[k], es[k])
  }

  /** Encodings one after the other, unframed, read back as the list of their values. */
  lemma {:induction false} DrainEncodings<V>(dec: Decoder<V>, vs: seq<V>, es: seq<bytes>, rest: bytes)
    requires Streams(dec) && EncodesAll(dec, vs, es)
    ensures var d := Drain(dec, rest); Drain(dec, Concat(es) + rest) == d.(values := vs + d.values)
    decreases |vs|
  {
    var d := Drain(dec, rest);
    if vs == [] {
      assert Concat(es) + rest == rest && vs + d.values == d.values;
    } else {
      var tail := Concat(es[1..]);
      assert Concat(es) + rest == es[0] + (tail + rest);
      assert Encodes(dec, vs[0], es[0]);
      DrainOne(dec, vs[0], es[0], tail + rest);
      forall k | 0 <= k < |vs| - 1
        ensures Encodes(dec, vs[1..][k], es[1..][k])
      {
        assert Encodes(dec, vs[k + 1], es[k + 1]);
      }
      DrainEncodings(dec, vs[1..], es[1..], rest);
      assert [vs[0]] + (vs[1..] + d.values) == vs + d.values;
    }
  }

  /** Feeding in two pieces is feeding at once. */
  lemma {:induction false} DrainSplit<V>(dec: Decoder<V>, a: bytes, b: bytes)
    requires Streams(dec)
    ensures var d := Drain(dec, a);
      Drain(dec, a + b) == if d.corrupt then d.(rest := d.rest + b) else Then(d, Drain(dec, d.rest + b))
    decreases |a|
  {
    assert DecodesOn(dec, a, b);
    match dec(a) {
      case Short =>
        var e := Drain(dec, a + b);
        assert [] + e.values == e.values;
      case Corrupt =>
      case Ok(v, used) =>
        var tail := a[used..];
        assert (a + b)[used..] == tail + b;
        DrainSplit(dec, tail, b);
        var d := Drain(dec, tail);
        assert Drain(dec, a) == d.(values := [v] + d.values);
        assert Drain(dec, a + b) == Drain(dec, tail + b).(values := [v] + Drain(dec, tail + b).values);
        if !d.corrupt {
          Regroup([v], d.values, Drain(dec, d.rest + b).values);
        }
    }
  }

  // ---------------------------------------------------------------- after a gap

  datatype Status<+V> = Reject | Undecided | Accept(item: V, used: nat)

  ghost predicate JudgesOn<V>(status: bytes -> Status<V>, s: bytes, more: bytes) {
    && (status(s).Accept? ==> 0 < status(s).used <= |s|)
    && (!status(s).Undecided? ==> status(s + more) == status(s))
  }

  /** A decoder, the kind of value the stream is made of, and how the bytes from one offset
      on are judged to start such a value. */
  datatype Source<!V> = Source(decode: Decoder<V>, isItem: V -> bool, status: bytes -> Status<V>)
  {
    ghost predicate Valid() {
      Streams(decode) && forall s, more :: JudgesOn(status, s, more)
    }
  }

  ghost predicate Rejected<V>(u: Source<V>, p: bytes, j: nat)
    requires j <= |p|
  {
    u.status(p[j..]).Reject?
  }

  /** The first offset not ruled out, or the end. */
  function FirstLive<V>(u: Source<V>, p: bytes): (k: nat)
    ensures k <= |p|
  {
    if p == [] || !u.status(p).Reject? then 0 else FirstLive(u, p[1..]) + 1
  }

  lemma {:induction false} FirstLiveIsFirst<V>(u: Source<V>, p: bytes)
    ensures var k := FirstLive(u, p); k < |p| ==> !Rejected(u, p, k)
    ensures forall j :: 0 <= j < FirstLive(u, p) ==> Rejected(u, p, j)
  {
    assert p[0..] == p;
    if p != [] && u.status(p).Reject? {
      FirstLiveIsFirst(u, p[1..]);
      var k := FirstLive(u, p[1..]);
      assert p[1..][k..] == p[k + 1..];
      forall j | 0 <= j < k + 1
        ensures Rejected(u, p, j)
      {
        if j > 0 {
          assert Rejected(u, p[1..], j - 1);
          assert p[1..][j - 1..] == p[j..];
        }
      }
    }
  }

  lemma FirstLiveIs<V>(u: Source<V>, p: bytes, k: nat)
    requires k <= |p| && (k < |p| ==> !Rejected(u, p, k))
    requires forall j :: 0 <= j < k ==> Rejected(u, p, j)
    ensures FirstLive(u, p) == k
  {
    FirstLiveIsFirst(u, p);
  }

  lemma RejectedGrows<V>(u: Source<V>, p: bytes, more: bytes, j: nat)
    requires u.Valid() && j <= |p| && Rejected(u, p, j)
    ensures Rejected(u, p + more, j)
  {
    assert JudgesOn(u.status, p[j..], more);
    assert (p + more)[j..] == p[j..] + more;
  }

  lemma {:induction false} FirstLiveSkips<V>(u: Source<V>, p: bytes, k: nat)
    requires k <= |p| && forall j :: 0 <= j < k ==> Rejected(u, p, j)
    ensures FirstLive(u, p) == k + FirstLive(u, p[k..])
  {
    if k == 0 {
      assert p[0..] == p;
    } else {
      assert Rejected(u, p, 0);
      assert p[0..] == p;
      var tail := p[1..];
      forall j | 0 <= j < k - 1
        ensures Rejected(u, tail, j)
      {
        assert Rejected(u, p, j + 1);
        assert tail[j..] == p[j + 1..];
      }
      FirstLiveSkips(u, tail, k - 1);
      assert tail[k - 1..] == p[k..];
    }
  }

  lemma FirstLiveGrows<V>(u: Source<V>, p: bytes, more: bytes)
    requires u.Valid()
    ensures var k := FirstLive(u, p);
      FirstLive(u, p + more) == k + FirstLive(u, p[k..] + more)
  {
    var k := FirstLive(u, p);
    FirstLiveIsFirst(u, p);
    forall j | 0 <= j < k
      ensures Rejected(u, p + more, j)
    {
      RejectedGrows(u, p, more, j);
    }
    FirstLiveSkips(u, p + more, k);
    assert (p + more)[k..] == p[k..] + more;
  }

  datatype State = State(resync: bool, pending: bytes)

  datatype Step<V> = Got(item: V, next: State) | Wait(next: State) | Broken(next: State)

  ghost function Grown(st: State, more: bytes): State {
    st.(pending := st.pending + more)
  }

  ghost function StepFrom<V>(u: Source<V>, p: bytes): (s: Step<V>)
    requires u.Valid()
    ensures s.Got? ==> |s.next.pending| < |p|
  {
    assert DecodesOn(u.decode, p, []);
    match u.decode(p)
    case Short => Wait(State(false, p))
    case Corrupt => Broken(State(false, p))
    case Ok(v, used) =>
      if u.isItem(v) then Got(v, State(false, p[used..])) else Broken(State(false, p[used..]))
  }

  /** The scan has moved to `rest`, where no offset before can be a boundary. */
  ghost function ScanFrom<V>(u: Source<V>, rest: bytes): (s: Step<V>)
    requires u.Valid()
    ensures s.Got? ==> |s.next.pending| < |rest|
  {
    if rest == [] then Wait(State(true, []))
    else
      assert JudgesOn(u.status, rest, []);
      match u.status(rest)
      case Accept(v, used) => Got(v, State(false, rest[used..]))
      case Undecided => Wait(State(true, rest))
      case Reject => Wait(State(true, rest))
  }

  ghost function NextStep<V>(u: Source<V>, st: State): (s: Step<V>)
    requires u.Valid()
    ensures s.Got? ==> |s.next.pending| < |st.pending|
  {
    if st.resync then ScanFrom(u, st.pending[FirstLive(u, st.pending)..]) else StepFrom(u, st.pending)
  }

  /** What an answer becomes when `more` arrives: only "wait" is open. */
  ghost predicate StaysAnswered<V>(u: Source<V>, s: Step<V>, grown: Step<V>, more: bytes)
    requires u.Valid()
  {
    match s
    case Got(v, next) => grown == Got(v, Grown(next, more))
    case Broken(next) => grown == Broken(Grown(next, more))
    case Wait(next) => grown == NextStep(u, Grown(next, more))
  }

  lemma StepFromGrows<V>(u: Source<V>, p: bytes, more: bytes)
    requires u.Valid()
    ensures StaysAnswered(u, StepFrom(u, p), StepFrom(u, p + more), more)
  {
    assert DecodesOn(u.decode, p, more);
    var d := u.decode(p);
    if d.Ok? {
      assert (p + more)[d.used..] == p[d.used..] + more;
    }
  }

  lemma ScanFromGrows<V>(u: Source<V>, rest: bytes, more: bytes)
    requires u.Valid() && (rest == [] || !u.status(rest).Reject?)
    ensures var grown := rest + more;
      StaysAnswered(u, ScanFrom(u, rest), ScanFrom(u, grown[FirstLive(u, grown)..]), more)
  {
    var grown := rest + more;
    if rest != [] && u.status(rest).Accept? {
      assert JudgesOn(u.status, rest, more);
      var s := u.status(rest);
      assert grown[0..] == grown && FirstLive(u, grown) == 0;
      assert grown[s.used..] == rest[s.used..] + more;
    } else {
      assert ScanFrom(u, rest) == Wait(State(true, rest));
    }
  }

  /** More input changes no answer but "wait", and waiting loses nothing. */
  lemma NextStepGrows<V>(u: Source<V>, st: State, more: bytes)
    requires u.Valid()
    ensures StaysAnswered(u, NextStep(u, st), NextStep(u, Grown(st, more)), more)
  {
    var p := st.pending;
    if !st.resync {
      StepFromGrows(u, p, more);
    } else {
      var k := FirstLive(u, p);
      var rest := p[k..];
      FirstLiveIsFirst(u, p);
      FirstLiveGrows(u, p, more);
      ScanFromGrows(u, rest, more);
      var m := FirstLive(u, rest + more);
      assert (p + more)[k + m..] == (rest + more)[m..];
    }
  }

  /** After a resync, what is returned is the item at the first offset not ruled out; and
      no offset stepped over could have become a boundary, whatever follows. */
  lemma ResyncFindsFirst<V>(u: Source<V>, p: bytes, more: bytes)
    requires u.Valid()
    ensures var k, s := FirstLive(u, p), NextStep(u, State(true, p));
      && (k < |p| ==> !u.status(p[k..]).Reject?)
      && (if k < |p| && u.status(p[k..]).Accept? then
            var a := u.status(p[k..]);
            a.used <= |p[k..]| && s == Got(a.item, State(false, p[k..][a.used..]))
          else
            s == Wait(State(true, p[k..])))
      && forall j :: 0 <= j < k ==> Rejected(u, p + more, j)
  {
    var k := FirstLive(u, p);
    FirstLiveIsFirst(u, p);
    assert JudgesOn(u.status, p[k..], []);
    assert k < |p| ==> !Rejected(u, p, k);
    forall j | 0 <= j < k
      ensures Rejected(u, p + more, j)
    {
      RejectedGrows(u, p, more, j);
    }
  }

  datatype Run<V> = Run(items: seq<V>, st: State, broken: bool)

  /** Next until more data is needed or the stream is found corrupt. */
  ghost function RunFrom<V>(u: Source<V>, st: State): (r: Run<V>)
    requires u.Valid()
    decreases |st.pending|
  {
    match NextStep(u, st)
    case Wait(next) => Run([], next, false)
    case Broken(next) => Run([], next, true)
    case Got(v, next) =>
      var r := RunFrom(u, next);
      r.(items := [v] + r.items)
  }

  ghost function Continue<V>(u: Source<V>, r: Run<V>, more: bytes): Run<V>
    requires u.Valid()
  {
    if r.broken then Run(r.items, Grown(r.st, more), true)
    else
      var q := RunFrom(u, Grown(r.st, more));
      q.(items := r.items + q.items)
  }

  /** How the bytes are split into feeds does not matter: feeding in two pieces is feeding
      at once, up to and including the first decode error. */
  lemma {:induction false} RunSplit<V>(u: Source<V>, st: State, more: bytes)
    requires u.Valid()
    ensures RunFrom(u, Grown(st, more)) == Continue(u, RunFrom(u, st), more)
    decreases |st.pending|
  {
    NextStepGrows(u, st, more);
    match NextStep(u, st) {
      case Wait(next) =>
        var q := RunFrom(u, Grown(next, more));
        assert [] + q.items == q.items;
        assert RunFrom(u, Grown(st, more)) == q;
      case Broken(_) =>
      case Got(v, next) =>
        RunSplit(u, next, more);
        var r := RunFrom(u, next);
        if !r.broken {
          Regroup([v], r.items, RunFrom(u, Grown(r.st, more)).items);
        }
    }
  }

  /** Once resynchronised, a stream of items is read as the plain unpacker reads it. */
  lemma {:induction false} AgreesWithPlain<V>(u: Source<V>, p: bytes)
    requires u.Valid()
    requires forall k :: 0 <= k < |Drain(u.decode, p).values| ==> u.isItem(Drain(u.decode, p).values[k])
    ensures var d := Drain(u.decode, p);
      RunFrom(u, State(false, p)) == Run(d.values, State(false, d.rest), d.corrupt)
    decreases |p|
  {
    assert DecodesOn(u.decode, p, []);
    var d := u.decode(p);
    if d.Ok? {
      var all, tail := Drain(u.decode, p), Drain(u.decode, p[d.used..]);
      assert all.values == [d.value] + tail.values;
      assert u.isItem(all.values[0]);
      forall k | 0 <= k < |tail.values|
        ensures u.isItem(tail.values[k])
      {
        assert all.values[k + 1] == tail.values[k];
      }
      AgreesWithPlain(u, p[d.used..]);
    }
  }

  /** Any stream is read as far as the plain unpacker reads items; another value breaks it off. */
  lemma {:induction false} ReadsUpToOther<V>(u: Source<V>, p: bytes, k: nat)
    requires u.Valid() && k < |Drain(u.decode, p).values| && !u.isItem(Drain(u.decode, p).values[k])
    requires forall j :: 0 <= j < k ==> u.isItem(Drain(u.decode, p).values[j])
    ensures var r := RunFrom(u, State(false, p)); r.items == Drain(u.decode, p).values[..k] && r.broken
    decreases k
  {
    assert DecodesOn(u.decode, p, []);
    var d := u.decode(p);
    var all, tail := Drain(u.decode, p), Drain(u.decode, p[d.used..]);
    assert all.values == [d.value] + tail.values;
    if k > 0 {
      assert u.isItem(all.values[0]) && tail.values[k - 1] == all.values[k];
      forall j | 0 <= j < k - 1
        ensures u.isItem(tail.values[j])
      {
        assert all.values[j + 1] == tail.values[j];
      }
      ReadsUpToOther(u, p[d.used..], k - 1);
      assert all.values[..k] == [d.value] + tail.values[..k - 1];
    }
  }

  /** A run that is not broken ends waiting for more. */
  ghost predicate Settled<V>(u: Source<V>, st: State)
    requires u.Valid()
  {
    NextStep(u, st) == Wait(st)
  }

  lemma {:induction false} RunSettles<V>(u: Source<V>, st: State)
    requires u.Valid() && !RunFrom(u, st).broken
    ensures Settled(u, RunFrom(u, st).st)
    decreases |st.pending|
  {
    match NextStep(u, st) {
      case Got(v, next) => RunSettles(u, next);
      case Wait(next) =>
        NextStepGrows(u, st, []);
        assert Grown(st, []) == st && Grown(next, []) == next;
      case Broken(_) =>
    }
  }

  /** The bytes after a gap: `junk` in which no offset can pass for a boundary, then an item
      the scan recognises. It is returned, and reading goes on behind it. */
  lemma RecoversAt<V>(u: Source<V>, junk: bytes, v: V, e: bytes, tail: bytes)
    requires u.Valid() && e != [] && u.status(e + tail) == Accept(v, |e|)
    requires forall j :: 0 <= j < |junk| ==> Rejected(u, junk + (e + tail), j)
    ensures var r := RunFrom(u, State(false, tail));
      RunFrom(u, State(true, junk + (e + tail))) == r.(items := [v] + r.items)
  {
    var p := junk + (e + tail);
    assert p[|junk|..] == e + tail;
    FirstLiveIs(u, p, |junk|);
    assert (e + tail)[|e|..] == tail;
    assert NextStep(u, State(true, p)) == Got(v, State(false, tail));
  }
}

/** The two readers of the item stream: the plain unpacker, which fails loudly, and the
    robust one, which resynchronises after a gap. */
module Unpacker {
  import opened Bytes
  import opened Streaming
  import opened Msgpack

  const COMPACT_THRESHOLD: nat := 64 * 1024

  function Msg(): Decoder<Value> {
    s => Decode(s, 0)
  }

  lemma MsgStreams()
    ensures Streams(Msg())
  {
    forall s, more
      ensures DecodesOn(Msg(), s, more)
    {
      DecodeStable(s, more, 0);
    }
  }

  /** The encoding of a value reads as the value, whatever follows it. */
  lemma ReadsBack(v: Value)
    requires Encodable(v, 0)
    ensures Encodes(Msg(), v, Encode(v, 0))
  {
    var e := Encode(v, 0);
    forall rest
      ensures Msg()(e + rest) == Ok(v, |e|)
    {
      RoundTrip(v, rest, 0);
    }
  }

  /** The encodings of a list of values. */
  function Encodings(vs: seq<Value>): (es: seq<bytes>)
    requires EncodableAll(vs, 0)
    ensures |es| == |vs|
  {
    if vs == [] then [] else [Encode(vs[0], 0)] + Encodings(vs[1..])
  }

  lemma {:induction false} EncodingsEncode(vs: seq<Value>)
    requires EncodableAll(vs, 0)
    ensures EncodesAll(Msg(), vs, Encodings(vs)) && Concat(Encodings(vs)) == EncodeAll(vs, 0)
  {
    if vs != [] {
      var v, es := vs[0], Encodings(vs);
      ReadsBack(v);
      EncodingsEncode(vs[1..]);
      assert es[1..] == Encodings(vs[1..]);
      forall k | 0 < k < |vs|
        ensures Encodes(Msg(), vs[k], es[k])
      {
        assert Encodes(Msg(), vs[1..][k - 1], es[1..][k - 1]);
      }
    }
  }

  /** An encoded list reads back as the list, with nothing left over. */
  lemma DrainAll(vs: seq<Value>)
    requires EncodableAll(vs, 0) && Streams(Msg())
    ensures Drain(Msg(), EncodeAll(vs, 0)) == Drained(vs, [], false)
  {
    EncodingsEncode(vs);
    DrainEncodings(Msg(), vs, Encodings(vs), []);
    assert Concat(Encodings(vs)) + [] == EncodeAll(vs, 0);
    assert vs + [] == vs;
    assert Drain(Msg(), []) == Drained([], [], false);
  }

  class StreamUnpacker {
    var buf: bytes
    var off: nat

    ghost predicate Valid()
      reads this
    {
      off <= |buf| && Streams(Msg())
    }

    /** The bytes fed but not yet decoded. */
    ghost function Pending(): bytes
      requires Valid()
      reads this
    {
      buf[off..]
    }

    constructor ()
      ensures Valid() && Pending() == []
    {
      buf, off := [], 0;
      MsgStreams();
    }

    /** What has been decoded is cut off now and then. */
    method Compact()
      requires Valid()
      modifies this
      ensures Valid() && Pending() == old(Pending())
    {
      if off == 0 {
        return;
      }
      if off >= |buf| {
        buf, off := [], 0;
        return;
      }
      if off >= COMPACT_THRESHOLD {
        buf, off := buf[off..], 0;
      }
    }

    method Feed(data: bytes)
      requires Valid()
      modifies this
      ensures Valid() && Pending() == old(Pending()) + data
    {
      Compact();
      buf := buf + data;
    }

    method Next() returns (d: Decoded<Value>)
      requires Valid()
      modifies this
      ensures Valid() && d == Msg()(old(Pending()))
      ensures d.Ok? ==> 0 < d.used <= |old(Pending())|
      ensures Pending() == if d.Ok? then old(Pending())[d.used..] else old(Pending())
    {
      assert DecodesOn(Msg(), Pending(), []);
      if |buf| - off == 0 {
        return Short;
      }
      d := Decode(buf[off..], 0);
      if d.Ok? {
        off := off + d.used;
      }
    }

    /** Next until more data is needed. */
    method Values() returns (vs: seq<Value>, corrupt: bool)
      requires Valid()
      modifies this
      ensures Valid() && Drain(Msg(), old(Pending())) == Drained(vs, Pending(), corrupt)
    {
      vs, corrupt := [], false;
      ghost var all := Drain(Msg(), Pending());
      while true
        invariant Valid()
        invariant all == Drain(Msg(), Pending()).(values := vs + Drain(Msg(), Pending()).values)
        decreases |Pending()|
      {
        ghost var before := Drain(Msg(), Pending());
        var d := Next();
        match d {
          case Short => return;
          case Corrupt => return vs, true;
          case Ok(v, _) =>
            assert before == Drain(Msg(), Pending()).(values := [v] + Drain(Msg(), Pending()).values);
            Regroup(vs, [v], Drain(Msg(), Pending()).values);
            vs := vs + [v];
        }
      }
    }
  }

  // ---------------------------------------------------------------- judging an offset

  /** The length of the map header a byte announces: fixmap, map16, or none. map32 is not
      accepted: no item has that many keys. */
  function MapHeader(b: byte): nat {
    if 0x80 <= b <= 0x8f then 1 else if b == 0xde then 3 else 0
  }

  predicate StrHead(b: byte) {
    0xa0 <= b <= 0xbf || b == 0xd9 || b == 0xda || b == 0xdb
  }

  /** It could be a packed item: the header of a map, then one of the known keys. */
  predicate ValidDict(data: bytes, keys: seq<bytes>) {
    && data != []
    && 0 < MapHeader(data[0]) < |data|
    && StrHead(data[MapHeader(data[0])])
    && exists i :: 0 <= i < |keys| && keys[i] <= data[MapHeader(data[0])..]
  }

  method ValidMsgpackedDict(data: bytes, keys: seq<bytes>) returns (ok: bool)
    ensures ok == ValidDict(data, keys)
  {
    if |data| == 0 {
      return false;
    }
    var offs := 0;
    if 0x80 <= data[0] <= 0x8f {
      offs := 1;
    } else if data[0] == 0xde {
      offs := 3;
    } else {
      return false;
    }
    if |data| <= offs {
      return false;
    }
    if !(0xa0 <= data[offs] <= 0xbf || data[offs] == 0xd9 || data[offs] == 0xda || data[offs] == 0xdb) {
      return false;
    }
    var rest := data[offs..];
    for i := 0 to |keys|
      invariant forall j :: 0 <= j < i ==> !(keys[j] <= rest)
    {
      if |rest| >= |keys[i]| && rest[..|keys[i]|] == keys[i] {
        return true;
      }
    }
    return false;
  }

  function Longest(keys: seq<bytes>): (n: nat)
    ensures forall i :: 0 <= i < |keys| ==> |keys[i]| <= n
  {
    if keys == [] then 0
    else
      var rest := Longest(keys[1..]);
      assert forall i :: 1 <= i < |keys| ==> keys[i] == keys[1..][i - 1];
      if |keys[0]| > rest then |keys[0]| else rest
  }

  /** How many bytes make a "no" of the filter final: the largest header and the longest key. */
  function MinEvaluable(keys: seq<bytes>): nat {
    3 + Longest(keys)
  }

  lemma ValidDictGrows(data: bytes, more: bytes, keys: seq<bytes>)
    requires ValidDict(data, keys)
    ensures ValidDict(data + more, keys)
  {
    var offs := MapHeader(data[0]);
    var i :| 0 <= i < |keys| && keys[i] <= data[offs..];
    assert (data + more)[offs..] == data[offs..] + more;
    assert keys[i] <= (data + more)[offs..];
  }

  lemma ValidDictFinal(data: bytes, more: bytes, keys: seq<bytes>)
    requires !ValidDict(data, keys) && MinEvaluable(keys) <= |data|
    requires forall i :: 0 <= i < |keys| ==> keys[i] != []
    ensures !ValidDict(data + more, keys)
  {
    var all, offs := data + more, MapHeader(data[0]);
    forall i | 0 <= i < |keys| && 0 < offs
      ensures keys[i] <= all[offs..] ==> keys[i] <= data[offs..]
    {
      assert |keys[i]| <= Longest(keys);
      assert all[offs..] == data[offs..] + more;
    }
  }

  /** What makes an item plausible: the encodings of the keys it may start with, and a
      second opinion on the decoded map. */
  datatype Rules = Rules(itemKeys: seq<bytes>, validate: Value -> bool)
  {
    ghost predicate Valid() {
      forall i :: 0 <= i < |itemKeys| ==> itemKeys[i] != []
    }

    /** Filter first, then decode, then ask the validator. A "no" near the end of the
        buffer, and a value cut off, are only provisional. */
    function StatusOf(rest: bytes): Status<Value> {
      if !ValidDict(rest, itemKeys) then
        if |rest| < MinEvaluable(itemKeys) then Undecided else Reject
      else
        match Decode(rest, 0)
        case Short => Undecided
        case Corrupt => Reject
        case Ok(v, used) => if v.Map? && validate(v) then Accept(v, used) else Reject
    }

    function Source(): Source<Value> {
      Streaming.Source(Msg(), (v: Value) => v.Map?, (rest: bytes) => StatusOf(rest))
    }
  }

  lemma SourceIsValid(u: Rules)
    requires u.Valid()
    ensures u.Source().Valid()
  {
    MsgStreams();
    forall s, more
      ensures JudgesOn(u.Source().status, s, more)
    {
      DecodeStable(s, more, 0);
      if ValidDict(s, u.itemKeys) {
        ValidDictGrows(s, more, u.itemKeys);
      } else if MinEvaluable(u.itemKeys) <= |s| {
        ValidDictFinal(s, more, u.itemKeys);
      }
    }
  }

  // ---------------------------------------------------------------- the robust unpacker

  ghost predicate AllRejected(u: Source<Value>, p: bytes, k: nat)
    requires k <= |p|
  {
    forall j :: 0 <= j < k ==> Rejected(u, p, j)
  }

  /** The rules for a repository's item keys: each is kept as its encoding, so that a
      candidate is recognised by comparing bytes. */
  function NewRules(keys: seq<bytes>, validate: Value -> bool): (u: Rules)
    requires forall i :: 0 <= i < |keys| ==> |keys[i]| <= MAX_UINT32
    ensures u.Valid()
  {
    Rules(seq(|keys|, i requires 0 <= i < |keys| => Encode(Str(keys[i]), 0)), validate)
  }

  class RobustUnpacker {
    const source: Source<Value>
    var buf: bytes
    var off: nat
    var resync: bool

    ghost predicate Valid()
      reads this
    {
      off <= |buf| && source.Valid()
    }

    /** What the unpacker is in the middle of. */
    ghost function Now(): State
      requires Valid()
      reads this
    {
      State(resync, buf[off..])
    }

    constructor (rules: Rules)
      requires rules.Valid()
      ensures Valid() && Now() == State(false, []) && source == rules.Source()
    {
      source := rules.Source();
      buf, off, resync := [], 0, false;
      SourceIsValid(rules);
    }

    /** The stream has a gap: what is buffered cannot be interpreted any more. */
    method Resync()
      requires Valid()
      modifies this
      ensures Valid() && Now() == State(true, [])
    {
      buf, off, resync := [], 0, true;
    }

    method Feed(data: bytes)
      requires Valid()
      modifies this
      ensures Valid() && Now() == Grown(old(Now()), data)
    {
      ghost var pending := buf[off..];
      if off > 0 && off >= |buf| {
        buf, off := [], 0;
      } else if off >= COMPACT_THRESHOLD {
        buf, off := buf[off..], 0;
      }
      assert buf[off..] == pending;
      buf := buf + data;
    }

    method Next() returns (s: Step<Value>)
      requires Valid()
      modifies this
      ensures Valid() && s == NextStep(source, old(Now()))
      ensures Now() == s.next
    {
      if !resync {
        assert DecodesOn(source.decode, buf[off..], []);
        var d := source.decode(buf[off..]);
        match d {
          case Short => s := Wait(State(resync, buf[off..]));
          case Corrupt => s := Broken(State(resync, buf[off..]));
          case Ok(v, used) =>
            assert buf[off..][used..] == buf[off + used..];
            off := off + used;
            s := if source.isItem(v) then Got(v, State(resync, buf[off..])) else Broken(State(resync, buf[off..]));
        }
      } else {
        s := NextBoundary();
      }
    }

    /** Walks forward, one byte at a time, to the first offset that is not ruled out. */
    method NextBoundary() returns (s: Step<Value>)
      requires Valid() && resync
      modifies this
      ensures Valid() && s == NextStep(source, old(Now()))
      ensures Now() == s.next
    {
      ghost var start, p := off, buf[off..];
      while off < |buf|
        invariant resync && Valid() && start <= off && buf == old(buf)
        invariant AllRejected(source, p, off - start)
        decreases |buf| - off
      {
        var rest := buf[off..];
        assert p[off - start..] == rest;
        var st := source.status(rest);
        if st.Reject? {
          off := off + 1;
          continue;
        }
        FirstLiveIs(source, p, off - start);
        if st.Undecided? {
          return Wait(State(resync, rest));
        }
        assert JudgesOn(source.status, rest, []);
        assert rest[st.used..] == buf[off + st.used..];
        off := off + st.used;
        resync := false;
        return Got(st.item, State(resync, buf[off..]));
      }
      FirstLiveIs(source, p, off - start);
      assert p[off - start..] == [];
      s := Wait(State(resync, buf[off..]));
    }
  }

  // ---------------------------------------------------------------- recovery

  /** An item the scan is sure to recognise. */
  ghost predicate Plausible(u: Rules, v: Value) {
    && Encodable(v, 0)
    && v.Map? && v.entries != [] && |v.entries| / 2 <= MAX_UINT16
    && v.entries[0].Str? && Encodable(v.entries[0], 1) && Encode(v.entries[0], 1) in u.itemKeys
    && u.validate(v)
  }

  lemma HeadShapes(n: nat, str: bytes)
    requires n <= MAX_UINT16 && |str| <= MAX_UINT32
    ensures var h := EncodeHead(MapShape, n); |h| == MapHeader(h[0])
    ensures StrHead(EncodeHead(StrShape, |str|)[0])
  {
  }

  lemma DictIsValid(keys: seq<bytes>, h: bytes, k: bytes, rest: bytes)
    requires h != [] && k != [] && |h| == MapHeader(h[0]) && StrHead(k[0]) && k in keys
    ensures ValidDict(h + k + rest, keys)
  {
    var s := h + k + rest;
    assert s[|h|..] == k + rest;
    assert s[|h|] == k[0] && s[0] == h[0];
    var i :| 0 <= i < |keys| && keys[i] == k;
    assert keys[i] <= s[|h|..];
  }

  /** A map on the wire: its head, its first key, the rest. */
  lemma MapOnWire(v: Value) returns (tail: bytes)
    requires Encodable(v, 0) && v.Map? && v.entries != []
    ensures Encodable(v.entries[0], 1)
    ensures Encode(v, 0) == EncodeHead(MapShape, |v.entries| / 2) + (Encode(v.entries[0], 1) + tail)
  {
    assert EncodableAll(v.entries, 1);
    tail := EncodeAll(v.entries[1..], 1);
  }

  lemma PlausibleIsAccepted(u: Rules, v: Value, rest: bytes)
    requires Plausible(u, v)
    ensures u.StatusOf(Encode(v, 0) + rest) == Accept(v, |Encode(v, 0)|)
  {
    RoundTrip(v, rest, 0);
    var tail := MapOnWire(v);
    var h, k := EncodeHead(MapShape, |v.entries| / 2), Encode(v.entries[0], 1);
    HeadShapes(|v.entries| / 2, v.entries[0].s);
    DictIsValid(u.itemKeys, h, k, tail + rest);
    Reframe(h, k, tail, rest);
  }

  lemma Reframe(h: bytes, k: bytes, tail: bytes, rest: bytes)
    ensures h + (k + tail) + rest == h + k + (tail + rest)
  {
  }

  /** The bytes after a gap: the tail of a damaged item in which no offset can pass for a
      boundary, then whole items. Every one of those items is recovered, and nothing else. */
  lemma RecoversAfterGap(rules: Rules, junk: bytes, items: seq<Value>)
    requires rules.Valid() && rules.Source().Valid()
    requires items != [] && EncodableAll(items, 0) && Plausible(rules, items[0])
    requires forall k :: 0 <= k < |items| ==> items[k].Map?
    requires forall j :: 0 <= j < |junk| ==> Rejected(rules.Source(), junk + EncodeAll(items, 0), j)
    ensures RunFrom(rules.Source(), State(true, junk + EncodeAll(items, 0))) == Run(items, State(false, []), false)
  {
    PlausibleIsAccepted(rules, items[0], EncodeAll(items[1..], 0));
    ReadsItems(rules, items[1..]);
    RecoversList(rules.Source(), junk, items);
  }

  lemma RecoversList(u: Source<Value>, junk: bytes, items: seq<Value>)
    requires u.Valid() && items != [] && EncodableAll(items, 0)
    requires u.status(EncodeAll(items, 0)) == Accept(items[0], |Encode(items[0], 0)|)
    requires RunFrom(u, State(false, EncodeAll(items[1..], 0))) == Run(items[1..], State(false, []), false)
    requires forall j :: 0 <= j < |junk| ==> Rejected(u, junk + EncodeAll(items, 0), j)
    ensures RunFrom(u, State(true, junk + EncodeAll(items, 0))) == Run(items, State(false, []), false)
  {
    RecoversAt(u, junk, items[0], Encode(items[0], 0), EncodeAll(items[1..], 0));
    assert [items[0]] + items[1..] == items;
  }

  /** In step, the encodings of a list of maps are read as that list. */
  lemma ReadsItems(rules: Rules, items: seq<Value>)
    requires rules.Source().Valid() && EncodableAll(items, 0)
    requires forall k :: 0 <= k < |items| ==> items[k].Map?
    ensures RunFrom(rules.Source(), State(false, EncodeAll(items, 0))) == Run(items, State(false, []), false)
  {
    DrainAll(items);
    AgreesWithPlain(rules.Source(), EncodeAll(items, 0));
  }

  // ---------------------------------------------------------------- the same on bytes

  /** The keys are strings as msgpack writes them. */
  predicate StrKeys(keys: seq<bytes>) {
    forall i :: 0 <= i < |keys| ==>
      keys[i] != [] && (0xa0 <= keys[i][0] <= 0xbf || keys[i][0] == 0xd9 || keys[i][0] == 0xda || keys[i][0] == 0xdb)
  }

  lemma NewKeysAreStr(keys: seq<bytes>, validate: Value -> bool)
    requires forall i :: 0 <= i < |keys| ==> |keys[i]| <= MAX_UINT32
    ensures StrKeys(NewRules(keys, validate).itemKeys)
    ensures forall i :: 0 <= i < |keys| ==> NewRules(keys, validate).itemKeys[i] == Encode(Str(keys[i]), 0)
    ensures |NewRules(keys, validate).itemKeys| == |keys| && NewRules(keys, validate).validate == validate
  {
    forall i | 0 <= i < |keys|
      ensures StrHead(Encode(Str(keys[i]), 0)[0])
    {
      HeadShapes(0, keys[i]);
    }
  }

  /** A fixmap or map16 head with a known key behind it. */
  predicate LooksLikeItem(data: bytes, keys: seq<bytes>) {
    || (0 < |data| && 0x80 <= data[0] <= 0x8f && exists i :: 0 <= i < |keys| && keys[i] <= data[1..])
    || (3 <= |data| && data[0] == 0xde && exists i :: 0 <= i < |keys| && keys[i] <= data[3..])
  }

  /** n bytes are enough for either head and any key. */
  predicate Room(keys: seq<bytes>, n: nat) {
    3 <= n && forall i :: 0 <= i < |keys| ==> 3 + |keys[i]| <= n
  }

  lemma {:induction false} LongestIsOne(keys: seq<bytes>)
    ensures keys == [] ==> Longest(keys) == 0
    ensures keys != [] ==> exists i :: 0 <= i < |keys| && |keys[i]| == Longest(keys)
  {
    if keys != [] {
      LongestIsOne(keys[1..]);
      if |keys[0]| < Longest(keys) {
        var i :| 0 <= i < |keys[1..]| && |keys[1..][i]| == Longest(keys[1..]);
        assert keys[i + 1] == keys[1..][i];
      }
    }
  }

  lemma ValidDictIff(data: bytes, keys: seq<bytes>)
    requires StrKeys(keys)
    ensures ValidDict(data, keys) <==> LooksLikeItem(data, keys)
  {
  }

  lemma RoomIff(keys: seq<bytes>, n: nat)
    ensures MinEvaluable(keys) <= n <==> Room(keys, n)
  {
    LongestIsOne(keys);
  }

  /** When an offset is accepted, ruled out, or left for later, told from the bytes there. */
  lemma StatusOnBytes(u: Rules, rest: bytes)
    requires StrKeys(u.itemKeys)
    ensures var looks, d := LooksLikeItem(rest, u.itemKeys), Decode(rest, 0);
      && (forall v, used :: u.StatusOf(rest) == Accept(v, used) <==>
            looks && d == Ok(v, used) && v.Map? && u.validate(v))
      && (u.StatusOf(rest).Reject? <==>
            if looks then d.Corrupt? || (d.Ok? && !(d.value.Map? && u.validate(d.value)))
            else Room(u.itemKeys, |rest|))
  {
    ValidDictIff(rest, u.itemKeys);
    RoomIff(u.itemKeys, |rest|);
  }

  lemma StatusInJunk(u: Rules, data: bytes, j: nat)
    requires StrKeys(u.itemKeys) && j <= |data| && !LooksLikeItem(data[j..], u.itemKeys)
    ensures !u.Source().status(data[j..]).Accept?
    ensures Rejected(u.Source(), data, j) <==> Room(u.itemKeys, |data| - j)
  {
    StatusOnBytes(u, data[j..]);
    assert u.Source().status(data[j..]) == u.StatusOf(data[j..]);
  }

  /** Nothing among the first k offsets looks like an item. */
  predicate NothingLooks(keys: seq<bytes>, data: bytes, k: nat)
    requires k <= |data|
  {
    forall j :: 0 <= j < k ==> !LooksLikeItem(data[j..], keys)
  }

  lemma JunkIsRejected(u: Rules, data: bytes, k: nat)
    requires StrKeys(u.itemKeys) && k <= |data| && NothingLooks(u.itemKeys, data, k) && Room(u.itemKeys, |data| - k + 1)
    ensures forall j :: 0 <= j < k ==> Rejected(u.Source(), data, j)
  {
    forall j | 0 <= j < k
      ensures Rejected(u.Source(), data, j)
    {
      StatusInJunk(u, data, j);
    }
  }

  lemma JunkWaits(u: Rules, data: bytes, k: nat)
    requires u.Valid() && StrKeys(u.itemKeys) && u.Source().Valid()
    requires 0 < k <= |data| && NothingLooks(u.itemKeys, data, k) && !Room(u.itemKeys, |data| - k + 1)
    ensures var r := RunFrom(u.Source(), State(true, data)); r.items == [] && !r.broken
  {
    forall j | 0 <= j < k
      ensures !u.Source().status(data[j..]).Accept?
    {
      StatusInJunk(u, data, j);
    }
    StatusInJunk(u, data, k - 1);
    WaitsInJunk(u.Source(), data, k - 1);
  }

  /** Behind junk in which nothing looks like an item come whole items and the start of one
      more. They are all recovered, if as many bytes follow the junk as a head and the
      longest key take; with fewer, the scan waits for more and none is. */
  lemma RecoversOnBytes(u: Rules, junk: bytes, items: seq<Value>, cut: bytes, data: bytes)
    requires u.Valid() && StrKeys(u.itemKeys) && u.Source().Valid()
    requires items != [] && EncodableAll(items, 0) && Plausible(u, items[0]) && Decode(cut, 0).Short?
    requires forall k :: 0 <= k < |items| ==> items[k].Map?
    requires data == junk + (EncodeAll(items, 0) + cut) && NothingLooks(u.itemKeys, data, |junk|)
    ensures var r := RunFrom(u.Source(), State(true, data));
      !r.broken && r.items == if junk == [] || Room(u.itemKeys, |data| - |junk| + 1) then items else []
  {
    if junk == [] || Room(u.itemKeys, |data| - |junk| + 1) {
      if junk != [] {
        JunkIsRejected(u, data, |junk|);
      }
      RecoversAfterGapUpTo(u, junk, items, cut, data);
    } else {
      JunkWaits(u, data, |junk|);
    }
  }

  /** A scan that comes upon an offset it cannot judge waits there, or before. */
  lemma WaitsInJunk(u: Source<Value>, data: bytes, last: nat)
    requires u.Valid() && last < |data| && !Rejected(u, data, last)
    requires forall j :: 0 <= j <= last ==> !u.status(data[j..]).Accept?
    ensures var r := RunFrom(u, State(true, data)); r.items == [] && !r.broken
  {
    FirstLiveIsFirst(u, data);
    assert FirstLive(u, data) <= last;
  }

  lemma RecoversAfterGapUpTo(rules: Rules, junk: bytes, items: seq<Value>, cut: bytes, data: bytes)
    requires rules.Valid() && rules.Source().Valid()
    requires items != [] && EncodableAll(items, 0) && Plausible(rules, items[0]) && Decode(cut, 0).Short?
    requires forall k :: 0 <= k < |items| ==> items[k].Map?
    requires data == junk + (EncodeAll(items, 0) + cut)
    requires forall j :: 0 <= j < |junk| ==> Rejected(rules.Source(), data, j)
    ensures RunFrom(rules.Source(), State(true, data)) == Run(items, State(false, cut), false)
  {
    var v, rest := items[0], EncodeAll(items[1..], 0);
    Regroup(Encode(v, 0), rest, cut);
    assert data == junk + (Encode(v, 0) + (rest + cut));
    PlausibleIsAccepted(rules, v, rest + cut);
    ReadsUpToCut(rules, items[1..], cut);
    RecoversAt(rules.Source(), junk, v, Encode(v, 0), rest + cut);
    assert [v] + items[1..] == items;
  }

  /** Up to an item cut short, the items come out and the rest is kept. */
  lemma ReadsUpToCut(rules: Rules, xs: seq<Value>, cut: bytes)
    requires rules.Valid() && rules.Source().Valid()
    requires EncodableAll(xs, 0) && (forall k :: 0 <= k < |xs| ==> xs[k].Map?) && Decode(cut, 0).Short?
    ensures RunFrom(rules.Source(), State(false, EncodeAll(xs, 0) + cut)) == Run(xs, State(false, cut), false)
  {
    var u := rules.Source();
    ReadsItems(rules, xs);
    RunSplit(u, State(false, EncodeAll(xs, 0)), cut);
    assert [] + cut == cut;
    assert RunFrom(u, State(false, cut)) == Run([], State(false, cut), false);
    assert xs + [] == xs;
  }
}

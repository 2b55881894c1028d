/** A nested value as the flat run of items that is packed, and that repeated unpacking sees. */
module Flat {
  import opened Bytes
  import opened Format
  import opened Normal
  import opened Tree
  import opened Unpacker
  import opened Stream
  import opened Packer

  /** The items of a value in the order they are packed. */
  function FlatItems(v: Value): (r: seq<Item>)
    ensures |r| > 0
    decreases v, 1
  {
    match v
    case Leaf(it) => [it]
    case ArrayOf(vs) => [Array(|vs|)] + FlatAll(vs)
    case MapOf(vs) => [Map(|vs| / 2)] + FlatAll(vs)
  }

  function FlatAll(vs: seq<Value>): (r: seq<Item>)
    ensures |r| >= |vs|
    decreases vs, 0
  {
    if vs == [] then [] else FlatItems(vs[0]) + FlatAll(vs[1..])
  }

  ghost predicate Spells(parts: seq<seq<byte>>, bs: seq<byte>, items: seq<Item>) {
    Items(parts) && Flatten(parts) == bs && ItemsOf(parts) == items
  }

  lemma {:induction false} SpellsAppend(a: seq<seq<byte>>, x: seq<byte>, i: seq<Item>,
                                        b: seq<seq<byte>>, y: seq<byte>, j: seq<Item>)
    requires Spells(a, x, i) && Spells(b, y, j)
    ensures Spells(a + b, x + y, i + j)
  {
    hide Parse;
    FlattenAppend(a, b);
    assert ItemsOf(a + b) == ItemsOf(a) + ItemsOf(b);
  }

  lemma {:induction false} FlattenAppend(a: seq<seq<byte>>, b: seq<seq<byte>>)
    ensures Flatten(a + b) == Flatten(a) + Flatten(b)
    decreases a
  {
    if a == [] {
      assert a + b == b;
    } else {
      assert (a + b)[1..] == a[1..] + b;
      FlattenAppend(a[1..], b);
    }
  }

  lemma SpellsHeader(it: Item)
    requires InRange(it) && Writable(it)
    ensures ValidCall(Repack(it)) && Spells([Shortest(it)], Shortest(it), [it])
  {
    ReadHeader(it, []);
    hide Parse, Shortest, Repack, ValidCall;
    assert Shortest(it) + [] == Shortest(it);
    var parts := [Shortest(it)];
    assert parts[1..] == [];
    assert Flatten(parts) == parts[0] + Flatten(parts[1..]);
    assert ItemsOf(parts) == [it];
  }

  /** The bytes of a value are the bytes of its items in order. */
  lemma {:induction false} EncodeSpells(v: Value) returns (parts: seq<seq<byte>>)
    requires ValidValue(v)
    ensures Spells(parts, Encode(v), FlatItems(v))
    decreases v, 1
  {
    hide Parse, Shortest, Repack, ValidCall, InRange, Writable, Spells;
    HeaderWritable(v);
    var it := Header(v);
    SpellsHeader(it);
    parts := [Shortest(it)];
    if !v.Leaf? {
      var vs := if v.ArrayOf? then v.elems else v.entries;
      var ps := EncodeAllSpells(vs);
      SpellsAppend(parts, Shortest(it), [it], ps, EncodeAll(vs), FlatAll(vs));
      parts := parts + ps;
    }
  }

  lemma {:induction false} EncodeAllSpells(vs: seq<Value>) returns (parts: seq<seq<byte>>)
    requires forall x | x in vs :: ValidValue(x)
    ensures Spells(parts, EncodeAll(vs), FlatAll(vs))
    decreases vs, 0
  {
    hide Parse, Encode, FlatItems;
    parts := [];
    if vs != [] {
      hide Spells;
      var p := EncodeSpells(vs[0]);
      var ps := EncodeAllSpells(vs[1..]);
      SpellsAppend(p, Encode(vs[0]), FlatItems(vs[0]), ps, EncodeAll(vs[1..]), FlatAll(vs[1..]));
      parts := p + ps;
    }
  }

  // Any spelling of a value, packed by these routines or not.

  /** Leaves are not containers, and a map has a value for every key. */
  ghost predicate Shaped(v: Value) {
    match v
    case Leaf(it) => !it.Array? && !it.Map?
    case ArrayOf(vs) => forall x | x in vs :: Shaped(x)
    case MapOf(vs) => |vs| % 2 == 0 && forall x | x in vs :: Shaped(x)
  }

  lemma {:induction false} BuildSpelled(v: Value, parts: seq<seq<byte>>, rest: seq<byte>)
    requires Shaped(v) && Items(parts) && ItemsOf(parts) == FlatItems(v)
    ensures Build(Flatten(parts) + rest) == Some((v, |Flatten(parts)|))
    decreases |parts|, 0
  {
    hide Parse, Build;
    var it, tail := Header(v), parts[1..];
    assert ItemsOf(parts)[0] == it;
    ParseFirst(parts, rest);
    assert ItemsOf(tail) == ItemsOf(parts)[1..];
    var vs := match v case Leaf(_) => [] case ArrayOf(vs) => vs case MapOf(vs) => vs;
    assert ItemsOf(parts)[1..] == FlatAll(vs) && Assemble(it, vs) == v && Count(it) == |vs|;
    hide FlatItems, ItemsOf;
    BuildAllSpelled(vs, tail, rest);
    assert Flatten(parts) + rest == parts[0] + (Flatten(tail) + rest);
    BuildStep(parts[0], it, vs, Flatten(tail) + rest, |Flatten(tail)|);
  }

  lemma {:induction false} BuildAllSpelled(vs: seq<Value>, parts: seq<seq<byte>>, rest: seq<byte>)
    requires (forall x | x in vs :: Shaped(x)) && Items(parts) && ItemsOf(parts) == FlatAll(vs)
    ensures BuildAll(Flatten(parts) + rest, |vs|) == Some((vs, |Flatten(parts)|))
    decreases |parts|, 1
  {
    hide Parse, Build, Shaped, FlatItems, ItemsOf;
    if vs != [] {
      var p, q := FirstSpelled(vs, parts);
      FlattenAppend(p, q);
      hide BuildAll, FlatAll;
      var t := Flatten(q) + rest;
      BuildSpelled(vs[0], p, t);
      BuildAllSpelled(vs[1..], q, rest);
      BuildAllStep(Flatten(p), vs[0], vs[1..], t, |Flatten(q)|);
      assert Flatten(parts) + rest == Flatten(p) + t;
      assert [vs[0]] + vs[1..] == vs;
    }
  }

  lemma {:induction false} FirstSpelled(vs: seq<Value>, parts: seq<seq<byte>>)
    returns (p: seq<seq<byte>>, q: seq<seq<byte>>)
    requires vs != [] && Items(parts) && ItemsOf(parts) == FlatAll(vs)
    ensures p + q == parts && |p| > 0 && Items(p) && Items(q)
    ensures ItemsOf(p) == FlatItems(vs[0]) && ItemsOf(q) == FlatAll(vs[1..])
  {
    hide Parse;
    var n := |FlatItems(vs[0])|;
    p, q := parts[..n], parts[n..];
    assert ItemsOf(p) == ItemsOf(parts)[..n];
    assert ItemsOf(q) == ItemsOf(parts)[n..];
  }

  lemma {:induction false} BuiltIsSpelled(t: seq<byte>) returns (parts: seq<seq<byte>>)
    requires Build(t).Some?
    ensures var (v, n) := Build(t).value; Shaped(v) && Spells(parts, t[..n], FlatItems(v))
    decreases |t|, 0
  {
    hide Parse, Spells;
    var Done(it, used) := Parse(t);
    var (v, n) := Build(t).value;
    SpellsOne(t);
    var ps := BuiltAllSpelled(t[used..], Count(it));
    var (vs, m) := BuildAll(t[used..], Count(it)).value;
    SpellsAppend([t[..used]], t[..used], [it], ps, t[used..][..m], FlatAll(vs));
    parts := [t[..used]] + ps;
    assert t[..used] + t[used..][..m] == t[..n];
    assert [it] + FlatAll([]) == [it];
  }

  lemma {:induction false} BuiltAllSpelled(t: seq<byte>, k: nat) returns (parts: seq<seq<byte>>)
    requires BuildAll(t, k).Some?
    ensures var (vs, n) := BuildAll(t, k).value; (forall x | x in vs :: Shaped(x)) && Spells(parts, t[..n], FlatAll(vs))
    decreases |t|, 1
  {
    hide Parse, Build;
    parts := [];
    if k > 0 {
      hide Spells, Shaped;
      var (v, n) := Build(t).value;
      var p := BuiltIsSpelled(t);
      var ps := BuiltAllSpelled(t[n..], k - 1);
      var (vs, m) := BuildAll(t[n..], k - 1).value;
      SpellsAppend(p, t[..n], FlatItems(v), ps, t[n..][..m], FlatAll(vs));
      parts := p + ps;
      assert t[..n] + t[n..][..m] == t[..n + m];
      assert ([v] + vs)[1..] == vs;
    }
  }

  lemma SpellsOne(t: seq<byte>)
    requires Parse(t).Done?
    ensures var Done(it, used) := Parse(t); Spells([t[..used]], t[..used], [it])
  {
    ParseOwnBytes(t);
    hide Parse;
    var parts := [t[..Parse(t).used]];
    assert parts[1..] == [];
    assert Flatten(parts) == parts[0] + Flatten(parts[1..]);
  }

  /** Decoding on any bytes: a value is found exactly when complete items stand there that spell it in pre-order. */
  lemma {:induction false} BuildIff(t: seq<byte>, v: Value, n: nat)
    ensures Build(t) == Some((v, n))
       <==> Shaped(v) && n <= |t| && exists parts :: Spells(parts, t[..n], FlatItems(v))
  {
    if Build(t) == Some((v, n)) {
      var parts := BuiltIsSpelled(t);
    }
    hide Build, Shaped, FlatItems;
    if Shaped(v) && n <= |t| && exists parts :: Spells(parts, t[..n], FlatItems(v)) {
      var parts :| Spells(parts, t[..n], FlatItems(v));
      BuildSpelled(v, parts, t[n..]);
      assert t[..n] + t[n..] == t;
    }
  }

  // Repeated unpacking sees the items.

  /** The reader looks at the bytes `mem` from its position on. */
  ghost predicate Over(r: Reader, mem: seq<byte>) {
    r.pos + |r.rest| <= |mem| && mem[r.pos..r.pos + |r.rest|] == r.rest
  }

  lemma NextOver(r: Reader, mem: seq<byte>)
    requires r.code == Ok && Over(r, mem)
    ensures Over(Next(r), mem)
  {
    StaysInside(r, 1);
    assert NextN(r, 1) == NextN(Next(r), 0) == Next(r);
    hide Next;
    var at := Next(r).pos - r.pos;
    SubSlice(mem, r.pos, r.pos + |r.rest|, at, |r.rest|);
    assert r.rest[at..] == r.rest[at..|r.rest|];
  }

  /** On a run of complete items the calls deliver those items one by one, each readable from the record. */
  lemma {:induction false} NextReadsItems(r: Reader, parts: seq<seq<byte>>, x: seq<byte>, mem: seq<byte>)
    requires r.code == Ok && Over(r, mem) && Items(parts) && r.rest == Flatten(parts) + x
    ensures forall i :: 0 <= i < |parts| ==> View(NextN(r, i + 1).cell, mem) == Some(ItemsOf(parts)[i])
    ensures NextN(r, |parts|).code == Ok && NextN(r, |parts|).rest == x
    decreases parts
  {
    hide Parse, View, Put, LengthSeen;
    if parts == [] {
      assert [] + x == x;
    } else {
      ParseFirst(parts, x);
      ViewAfterNext(r, mem);
      NextOver(r, mem);
      NextReadsItems(Next(r), parts[1..], x, mem);
      forall i | 0 <= i < |parts|
        ensures View(NextN(r, i + 1).cell, mem) == Some(ItemsOf(parts)[i])
      {
        if i > 0 {
          assert NextN(r, i + 1) == NextN(Next(r), i);
          assert ItemsOf(parts)[i] == ItemsOf(parts[1..])[i - 1];
        }
      }
    }
  }

  /**
   Unpacking a packed value call by call delivers its items in pre-order; when nothing follows the value,
   the call after the last item reports the end of the input.
   */
  lemma {:induction false} UnpackReadsValue(v: Value, r: Reader, x: seq<byte>, mem: seq<byte>)
    requires ValidValue(v) && r.code == Ok && Over(r, mem) && r.rest == Encode(v) + x
    ensures var n := |FlatItems(v)|;
            && (forall i :: 0 <= i < n ==> View(NextN(r, i + 1).cell, mem) == Some(FlatItems(v)[i]))
            && NextN(r, n).code == Ok && NextN(r, n).rest == x
            && (x == [] ==> NextN(r, n + 1).code == EndOfInput)
  {
    hide Parse, View, Put, LengthSeen, Encode, FlatItems;
    var parts := EncodeSpells(v);
    NextReadsItems(r, parts, x, mem);
    if x == [] {
      EndFails();
      NextNLast(r, |parts|);
    }
  }

  lemma {:induction false} NextNLast(r: Reader, n: nat)
    ensures NextN(r, n + 1) == Next(NextN(r, n))
    decreases n
  {
    hide Next;
    if n > 0 {
      NextNLast(Next(r), n - 1);
    }
  }

  // Decoding with the calls alone.

  /** A value decoded as a client would: unpack an item, view the record, and decode as many values as it announces. */
  function Decode(r: Reader, mem: seq<byte>): (d: (Option<Value>, Reader))
    ensures |d.1.rest| <= |r.rest|
    ensures d.0.Some? ==> d.1.code == Ok && |d.1.rest| < |r.rest|
    decreases |r.rest|, 0
  {
    NextShrinks(r);
    var r1 := Next(r);
    if r1.code != Ok then (None, r1)
    else match View(r1.cell, mem)
      case None => (None, r1)
      case Some(it) =>
        var (vs, r2) := DecodeAll(r1, Count(it), mem);
        (if vs.None? then None else Some(Assemble(it, vs.value)), r2)
  }

  function DecodeAll(r: Reader, k: nat, mem: seq<byte>): (d: (Option<seq<Value>>, Reader))
    ensures |d.1.rest| <= |r.rest|
    ensures d.0.Some? && r.code == Ok ==> d.1.code == Ok
    decreases |r.rest|, 1
  {
    if k == 0 then (Some([]), r)
    else
      var (v, r1) := Decode(r, mem);
      if v.None? then (None, r1)
      else
        var (vs, r2) := DecodeAll(r1, k - 1, mem);
        (if vs.None? then None else Some([v.value] + vs.value), r2)
  }

  lemma NextShrinks(r: Reader)
    ensures |Next(r).rest| <= |r.rest|
    ensures Next(r).code == Ok ==> |Next(r).rest| < |r.rest|
  {
    hide Put, LengthSeen;
  }

  ghost predicate At(d: Reader, r: Reader, n: nat, mem: seq<byte>) {
    d.code == Ok && d.pos == r.pos + n && n <= |r.rest| && d.rest == r.rest[n..] && Over(d, mem)
  }

  /** Decoding with the calls is decoding the bytes: the same value, leaving the cursor after it, or neither. */
  lemma {:induction false} DecodeIsBuild(r: Reader, mem: seq<byte>)
    requires r.code == Ok && Over(r, mem)
    ensures match Build(r.rest)
            case None => Decode(r, mem).0.None?
            case Some((v, n)) => Decode(r, mem).0 == Some(v) && At(Decode(r, mem).1, r, n, mem)
    decreases |r.rest|, 0
  {
    hide Parse, View, Put, LengthSeen;
    NextOver(r, mem);
    if Parse(r.rest).Done? {
      ViewAfterNext(r, mem);
      NextShrinks(r);
      var Done(it, used) := Parse(r.rest);
      DecodeAllIsBuild(Next(r), Count(it), mem);
    }
  }

  lemma {:induction false} DecodeAllIsBuild(r: Reader, k: nat, mem: seq<byte>)
    requires r.code == Ok && Over(r, mem)
    ensures match BuildAll(r.rest, k)
            case None => DecodeAll(r, k, mem).0.None?
            case Some((vs, n)) => DecodeAll(r, k, mem).0 == Some(vs) && At(DecodeAll(r, k, mem).1, r, n, mem)
    decreases |r.rest|, 1
  {
    hide Build, Decode;
    if k > 0 {
      DecodeIsBuild(r, mem);
      if Build(r.rest).Some? {
        var r1, n := Decode(r, mem).1, Build(r.rest).value.1;
        DecodeAllIsBuild(r1, k - 1, mem);
        if BuildAll(r1.rest, k - 1).Some? {
          AtFurther(DecodeAll(r1, k - 1, mem).1, r1, r, n, BuildAll(r1.rest, k - 1).value.1, mem);
          hide At;
        }
      }
    }
  }

  lemma AtFurther(d: Reader, r1: Reader, r: Reader, n: nat, m: nat, mem: seq<byte>)
    requires At(r1, r, n, mem) && At(d, r1, m, mem)
    ensures At(d, r, n + m, mem)
  {
    assert r.rest[n..][m..] == r.rest[n + m..];
  }

  /**
   Pack any nested value into an empty buffer: it succeeds exactly when the encoding fits, and then decoding the
   buffer call by call gives the value back, and the next call finds the input exhausted.
   */
  lemma {:induction false} PackUnpackValue(v: Value, capacity: nat, cell: Cell)
    requires ValidValue(v)
    ensures var s := Run(Packed([], capacity, false, Ok), PreOrder(v));
            && (s.code == Ok <==> |Encode(v)| <= capacity)
            && (s.code == Ok ==>
                  var (w, r) := Decode(Reader(s.out, 0, Ok, cell), s.out);
                  Build(s.out) == Some((v, |s.out|)) && w == Some(v) && r.pos == |s.out| && Next(r).code == EndOfInput)
            && (s.code != Ok ==> s.code == BufferOverflow)
  {
    hide Parse, View, Put, LengthSeen, Encode, PreOrder, ValidCall, Encoding;
    var s0 := Packed([], capacity, false, Ok);
    var s := Run(s0, PreOrder(v));
    EmittedPreOrder(v);
    RunOk(s0, PreOrder(v));
    BuildEncode(v, []);
    assert Encode(v) + [] == Encode(v) == [] + Encode(v);
    if s.code != Ok {
      var n := RunFails(s0, PreOrder(v));
      EmittedPrefix(PreOrder(v), n + 1);
    } else {
      hide Build, Decode;
      DecodeIsBuild(Reader(s.out, 0, Ok, cell), s.out);
      EndFails();
    }
  }
}

/** Whole nested values: written in pre-order, rebuilt item by item, and never written longer than read. */
module Tree {
  import opened Bytes
  import opened Format
  import opened Normal

  /** A map is the sequence of its keys and values in turn. */
  datatype Value = Leaf(item: Item) | ArrayOf(elems: seq<Value>) | MapOf(entries: seq<Value>)

  ghost predicate ValidValue(v: Value) {
    match v
    case Leaf(it) => InRange(it) && Writable(it) && !it.Array? && !it.Map?
    case ArrayOf(vs) => |vs| < U32 && forall x | x in vs :: ValidValue(x)
    case MapOf(vs) => |vs| % 2 == 0 && |vs| < 2 * U32 && forall x | x in vs :: ValidValue(x)
  }

  function Header(v: Value): Item {
    match v
    case Leaf(it) => it
    case ArrayOf(vs) => Array(|vs|)
    case MapOf(vs) => Map(|vs| / 2)
  }

  /** How many items follow a header as its children. */
  function Count(it: Item): nat {
    match it
    case Array(n) => n
    case Map(n) => 2 * n
    case _ => 0
  }

  // Writing.

  lemma HeaderWritable(v: Value)
    requires ValidValue(v)
    ensures InRange(Header(v)) && Writable(Header(v)) && ValidCall(Repack(Header(v)))
  {
  }

  function Encode(v: Value): (bs: seq<byte>)
    requires ValidValue(v)
    ensures |bs| > 0
    decreases v, 1
  {
    HeaderWritable(v);
    var head := Shortest(Header(v));
    match v
    case Leaf(_) => head
    case ArrayOf(vs) => head + EncodeAll(vs)
    case MapOf(vs) => head + EncodeAll(vs)
  }

  function EncodeAll(vs: seq<Value>): seq<byte>
    requires forall x | x in vs :: ValidValue(x)
    decreases vs, 0
  {
    if vs == [] then [] else Encode(vs[0]) + EncodeAll(vs[1..])
  }

  // Reading.

  function Assemble(it: Item, vs: seq<Value>): Value {
    match it
    case Array(_) => ArrayOf(vs)
    case Map(_) => MapOf(vs)
    case _ => Leaf(it)
  }

  /** The value at the front of `t` and the bytes it takes. */
  function Build(t: seq<byte>): (r: Option<(Value, nat)>)
    ensures r.Some? ==> 0 < r.value.1 <= |t|
    decreases |t|, 0
  {
    match Parse(t)
    case Fail(_, _) => None
    case Done(it, used) =>
      match BuildAll(t[used..], Count(it))
      case None => None
      case Some((vs, n)) => Some((Assemble(it, vs), used + n))
  }

  /** The `k` values at the front of `t` and the bytes they take. */
  function BuildAll(t: seq<byte>, k: nat): (r: Option<(seq<Value>, nat)>)
    ensures r.Some? ==> |r.value.0| == k && k <= r.value.1 <= |t|
    decreases |t|, 1
  {
    if k == 0 then Some(([], 0))
    else match Build(t)
      case None => None
      case Some((v, n)) =>
        match BuildAll(t[n..], k - 1)
        case None => None
        case Some((vs, m)) => Some(([v] + vs, n + m))
  }

  lemma {:induction false} ReadHeader(it: Item, rest: seq<byte>)
    requires InRange(it) && Writable(it)
    ensures ValidCall(Repack(it)) && Parse(Shortest(it) + rest) == Done(it, |Shortest(it)|)
  {
    ReadBack(Repack(it), false, rest);
  }

  lemma {:induction false} BuildStep(head: seq<byte>, it: Item, vs: seq<Value>, t: seq<byte>, n: nat)
    requires Parse(head + t) == Done(it, |head|) && BuildAll(t, Count(it)) == Some((vs, n))
    ensures Build(head + t) == Some((Assemble(it, vs), |head| + n))
  {
    hide Parse;
    assert (head + t)[|head|..] == t;
  }

  lemma {:induction false} BuildAllStep(front: seq<byte>, v: Value, vs: seq<Value>, t: seq<byte>, n: nat)
    requires Build(front + t) == Some((v, |front|)) && BuildAll(t, |vs|) == Some((vs, n))
    ensures BuildAll(front + t, |vs| + 1) == Some(([v] + vs, |front| + n))
  {
    hide Build;
    assert (front + t)[|front|..] == t;
  }

  /** Every value, written and then read back, is itself, and reading stops where writing did. */
  lemma {:induction false} BuildEncode(v: Value, rest: seq<byte>)
    requires ValidValue(v)
    ensures Build(Encode(v) + rest) == Some((v, |Encode(v)|))
    decreases v, 1
  {
    hide Parse, Shortest, ValidCall, Repack, InRange, Writable, Build;
    var it := Header(v);
    HeaderWritable(v);
    var head := Shortest(it);
    if v.Leaf? {
      ReadHeader(it, rest);
      BuildStep(head, it, [], rest, 0);
    } else {
      var vs := if v.ArrayOf? then v.elems else v.entries;
      BuildEncodeAll(vs, rest);
      hide BuildAll;
      var body := EncodeAll(vs) + rest;
      ReadHeader(it, body);
      BuildStep(head, it, vs, body, |EncodeAll(vs)|);
      assert Encode(v) + rest == head + body;
    }
  }

  lemma {:induction false} BuildEncodeAll(vs: seq<Value>, rest: seq<byte>)
    requires forall x | x in vs :: ValidValue(x)
    ensures BuildAll(EncodeAll(vs) + rest, |vs|) == Some((vs, |EncodeAll(vs)|))
    decreases vs, 0
  {
    hide Parse, Shortest, ValidCall, Repack, InRange, Writable, Encode, Build;
    if vs == [] {
      assert [] + rest == rest;
    } else {
      hide BuildAll;
      var v, ws := vs[0], vs[1..];
      var t := EncodeAll(ws) + rest;
      BuildEncode(v, t);
      BuildEncodeAll(ws, rest);
      BuildAllStep(Encode(v), v, ws, t, |EncodeAll(ws)|);
      assert EncodeAll(vs) + rest == Encode(v) + t;
      assert [v] + ws == vs;
    }
  }

  /** No value is a prefix of another: equal bytes mean equal values and equal remainders. */
  lemma {:induction false} EncodeUnambiguous(v: Value, rest: seq<byte>, w: Value, rest': seq<byte>)
    requires ValidValue(v) && ValidValue(w) && Encode(v) + rest == Encode(w) + rest'
    ensures v == w && rest == rest'
  {
    BuildEncode(v, rest);
    BuildEncode(w, rest');
    hide Encode, Build;
    assert (Encode(v) + rest)[|Encode(v)|..] == rest;
    assert (Encode(w) + rest')[|Encode(w)|..] == rest';
  }

  /** However a value was spelled, packing it again is no longer. */
  lemma {:induction false} EncodeShortest(t: seq<byte>, v: Value, n: nat)
    requires ValidValue(v) && Build(t) == Some((v, n))
    ensures |Encode(v)| <= n
    decreases |t|, 0
  {
    hide Parse, Shortest, ValidCall, Repack, InRange, Writable;
    var Done(it, used) := Parse(t);
    var (vs, m) := BuildAll(t[used..], Count(it)).value;
    HeaderWritable(v);
    RepackNormalises(t, []);
    if v.Leaf? {
    } else {
      EncodeAllShortest(t[used..], vs, m);
    }
  }

  lemma {:induction false} EncodeAllShortest(t: seq<byte>, vs: seq<Value>, n: nat)
    requires (forall x | x in vs :: ValidValue(x)) && BuildAll(t, |vs|) == Some((vs, n))
    ensures |EncodeAll(vs)| <= n
    decreases |t|, 1
  {
    hide Parse, Shortest, ValidCall, Repack, InRange, Writable, Encode;
    if vs != [] {
      var (v, m) := Build(t).value;
      var ws := BuildAll(t[m..], |vs| - 1).value.0;
      assert vs == [v] + ws;
      assert vs[1..] == ws;
      EncodeShortest(t, v, m);
      EncodeAllShortest(t[m..], ws, n - m);
    }
  }
}

/** The packing routines as they work: a cursor advancing through a bounded buffer, with an error code that sticks. */
module Packer {
  import opened Bytes
  import opened Format
  import opened Normal
  import opened Tree

  /** What a packing context amounts to: the bytes written so far, and the room for them. */
  datatype Packed = Packed(out: seq<byte>, capacity: nat, compatible: bool, code: Code)

  /** Writes all of `bs`, or nothing and an error. */
  function Append(s: Packed, bs: seq<byte>): Packed {
    if |s.out| + |bs| <= s.capacity then s.(out := s.out + bs) else s.(code := BufferOverflow)
  }

  /** One packing call. */
  function Apply(s: Packed, c: Call): Packed
    requires ValidCall(c)
  {
    if s.code != Ok then s
    else match Encoding(c, s.compatible)
      case None => s.(code := IllegalCall)
      case Some(bs) => Append(s, bs)
  }

  // Whole runs.

  datatype Op = Do(call: Call) | SetCompatibility(compatible: bool)

  predicate ValidOps(ops: seq<Op>) {
    forall i :: 0 <= i < |ops| && ops[i].Do? ==> ValidCall(ops[i].call)
  }

  function Step(s: Packed, op: Op): Packed
    requires op.Do? ==> ValidCall(op.call)
  {
    match op
    case Do(c) => Apply(s, c)
    case SetCompatibility(b) => s.(compatible := b)
  }

  function Run(s: Packed, ops: seq<Op>): Packed
    requires ValidOps(ops)
    decreases ops
  {
    if ops == [] then s else Run(Step(s, ops[0]), ops[1..])
  }

  /** The encodings of all calls, one after the other; `None` where some call is illegal. */
  function Emitted(ops: seq<Op>, compatible: bool): Option<seq<byte>>
    requires ValidOps(ops)
  {
    if ops == [] then Some([])
    else match ops[0]
      case SetCompatibility(b) => Emitted(ops[1..], b)
      case Do(c) =>
        match Encoding(c, compatible)
        case None => None
        case Some(bs) =>
          match Emitted(ops[1..], compatible)
          case None => None
          case Some(rest) => Some(bs + rest)
  }

  ghost predicate Fits(s: Packed, ops: seq<Op>)
    requires ValidOps(ops)
  {
    Emitted(ops, s.compatible).Some? && |s.out| + |Emitted(ops, s.compatible).value| <= s.capacity
  }

  lemma {:induction false} ErrorSticks(s: Packed, ops: seq<Op>)
    requires ValidOps(ops) && s.code != Ok
    ensures Run(s, ops).out == s.out && Run(s, ops).code == s.code
    decreases ops
  {
    hide Encoding, ValidCall;
    if ops != [] {
      ErrorSticks(Step(s, ops[0]), ops[1..]);
    }
  }

  /** A run succeeds exactly when every call is legal and all encodings fit; then it has written them all. */
  lemma {:induction false} RunOk(s: Packed, ops: seq<Op>)
    requires ValidOps(ops) && s.code == Ok && |s.out| <= s.capacity
    ensures Run(s, ops).code == Ok <==> Fits(s, ops)
    ensures Fits(s, ops) ==> Run(s, ops).out == s.out + Emitted(ops, s.compatible).value
    decreases ops
  {
    hide Encoding, ValidCall;
    if ops != [] {
      var s1 := Step(s, ops[0]);
      if s1.code == Ok {
        RunOk(s1, ops[1..]);
      } else {
        ErrorSticks(s1, ops[1..]);
      }
    }
  }

  /** A failing run has written exactly the calls before its first failing one, whose error it reports. */
  lemma {:induction false} RunFails(s: Packed, ops: seq<Op>) returns (n: nat)
    requires ValidOps(ops) && s.code == Ok && |s.out| <= s.capacity && !Fits(s, ops)
    ensures n < |ops| && Fits(s, ops[..n]) && !Fits(s, ops[..n + 1])
    ensures Run(s, ops).out == s.out + Emitted(ops[..n], s.compatible).value
    ensures Run(s, ops).code == if Emitted(ops[..n + 1], s.compatible).None? then IllegalCall else BufferOverflow
    decreases ops
  {
    hide Encoding, ValidCall;
    var s1 := Step(s, ops[0]);
    assert ops[..1] == [ops[0]] && ops[..1][1..] == [];
    if s1.code != Ok {
      n := 0;
      ErrorSticks(s1, ops[1..]);
    } else {
      var m := RunFails(s1, ops[1..]);
      n := m + 1;
      assert ops[..n][1..] == ops[1..][..m];
      assert ops[..n + 1][1..] == ops[1..][..m + 1];
    }
  }

  // A nested value, packed in pre-order.

  function PreOrder(v: Value): (ops: seq<Op>)
    requires ValidValue(v)
    ensures ValidOps(ops)
    decreases v, 1
  {
    HeaderWritable(v);
    var head := Do(Repack(Header(v)));
    match v
    case Leaf(_) => [head]
    case ArrayOf(vs) => [head] + PreOrderAll(vs)
    case MapOf(vs) => [head] + PreOrderAll(vs)
  }

  function PreOrderAll(vs: seq<Value>): (ops: seq<Op>)
    requires forall x | x in vs :: ValidValue(x)
    ensures ValidOps(ops)
    decreases vs, 0
  {
    if vs == [] then [] else PreOrder(vs[0]) + PreOrderAll(vs[1..])
  }

  lemma {:induction false} EmittedAppend(a: seq<Op>, b: seq<Op>, x: seq<byte>, y: seq<byte>)
    requires ValidOps(a) && ValidOps(b) && Emitted(a, false) == Some(x) && Emitted(b, false) == Some(y)
    requires forall op | op in a :: op.Do?
    ensures ValidOps(a + b) && Emitted(a + b, false) == Some(x + y)
    decreases a
  {
    hide Encoding, ValidCall;
    if a == [] {
      assert a + b == b && x + y == y;
    } else {
      assert (a + b)[1..] == a[1..] + b;
      var e := Encoding(a[0].call, false).value;
      var x1 := Emitted(a[1..], false).value;
      EmittedAppend(a[1..], b, x1, y);
      assert e + x1 + y == e + (x1 + y);
    }
  }

  lemma {:induction false} EmittedPreOrder(v: Value)
    requires ValidValue(v)
    ensures Emitted(PreOrder(v), false) == Some(Encode(v)) && forall op | op in PreOrder(v) :: op.Do?
    decreases v, 1
  {
    hide Encoding, ValidCall, Repack, InRange, Writable;
    HeaderWritable(v);
    var head := Do(Repack(Header(v)));
    EmittedOne(Header(v));
    if !v.Leaf? {
      var vs := if v.ArrayOf? then v.elems else v.entries;
      EmittedPreOrderAll(vs);
      EmittedAppend([head], PreOrderAll(vs), Shortest(Header(v)), EncodeAll(vs));
    }
  }

  lemma EmittedOne(it: Item)
    requires ValidCall(Repack(it))
    ensures Emitted([Do(Repack(it))], false) == Some(Shortest(it))
  {
    assert [Do(Repack(it))][1..] == [];
    assert Shortest(it) + [] == Shortest(it);
  }

  lemma {:induction false} EmittedPreOrderAll(vs: seq<Value>)
    requires forall x | x in vs :: ValidValue(x)
    ensures Emitted(PreOrderAll(vs), false) == Some(EncodeAll(vs)) && forall op | op in PreOrderAll(vs) :: op.Do?
    decreases vs, 0
  {
    hide Encoding, ValidCall, Repack, InRange, Writable, PreOrder, Encode;
    if vs != [] {
      EmittedPreOrder(vs[0]);
      EmittedPreOrderAll(vs[1..]);
      EmittedAppend(PreOrder(vs[0]), PreOrderAll(vs[1..]), Encode(vs[0]), EncodeAll(vs[1..]));
    }
  }

  lemma {:induction false} EmittedPrefix(ops: seq<Op>, n: nat)
    requires ValidOps(ops) && Emitted(ops, false).Some? && n <= |ops| && forall op | op in ops :: op.Do?
    ensures Emitted(ops[..n], false).Some?
    decreases ops
  {
    hide Encoding, ValidCall;
    if n > 0 {
      EmittedPrefix(ops[1..], n - 1);
      assert ops[..n][1..] == ops[1..][..n - 1];
    }
  }

  // The code.

  /** `s` with `bs` written at index `p`. */
  ghost function Splice(s: seq<byte>, p: nat, bs: seq<byte>): (r: seq<byte>)
    requires p + |bs| <= |s|
    ensures |r| == |s|
  {
    s[..p] + bs + s[p + |bs|..]
  }

  lemma SpliceTwice(s: seq<byte>, p: nat, a: seq<byte>, b: seq<byte>)
    requires p + |a| + |b| <= |s|
    ensures Splice(Splice(s, p, a), p + |a|, b) == Splice(s, p, a + b)
  {
  }

  lemma SpliceEnds(s: seq<byte>, start: nat, p: nat, bs: seq<byte>)
    requires start <= p && p + |bs| <= |s|
    ensures Splice(s, p, bs)[start..p + |bs|] == s[start..p] + bs
    ensures Splice(s, p, bs)[..p] == s[..p]
    ensures Splice(s, p, bs)[p + |bs|..] == s[p + |bs|..]
  {
  }

  class PackContext {
    const buf: array<byte>
    const start: nat
    const end: nat
    var current: nat
    var compatible: bool
    var code: Code

    ghost predicate Valid()
      reads this
    {
      start <= current <= end <= buf.Length
    }

    ghost function State(): (s: Packed)
      requires Valid()
      reads this, buf
    {
      Packed(buf[start..current], end - start, compatible, code)
    }

    constructor (data: array<byte>, length: nat)
      requires length <= data.Length
      ensures Valid() && buf == data && State() == Packed([], length, false, Ok)
    {
      buf := data;
      start, current, end := 0, 0, length;
      compatible, code := false, Ok;
    }

    method SetCompatibility(b: bool)
      requires Valid()
      modifies this`compatible
      ensures Valid() && State() == Step(old(State()), Op.SetCompatibility(b))
    {
      compatible := b;
    }

    /** Claims `more` bytes at `p`, or records the overflow. */
    method Reserve(more: nat) returns (ok: bool, p: nat)
      requires Valid()
      modifies this`current, this`code
      ensures Valid() && p == old(current) && ok == (p + more <= end)
      ensures ok ==> current == p + more && code == old(code)
      ensures !ok ==> current == p && code == BufferOverflow
    {
      p := current;
      ok := p + more <= end;
      if ok {
        current := p + more;
      } else {
        code := BufferOverflow;
      }
    }

    method Store16(p: nat, d: int)
      requires p + 2 <= buf.Length
      modifies buf
      ensures buf[..] == Splice(old(buf[..]), p, ToBytes(d, 2))
    {
      buf[p] := d / 0x100 % 0x100;
      buf[p + 1] := d % 0x100;
      assert ToBytes(d, 2) == [d / 0x100 % 0x100, d % 0x100];
    }

    method Store32(p: nat, d: int)
      requires p + 4 <= buf.Length
      modifies buf
      ensures buf[..] == Splice(old(buf[..]), p, ToBytes(d, 4))
    {
      Store16(p, d / 0x1_0000);
      Store16(p + 2, d);
      SplitBytes(d, 2);
      SpliceTwice(old(buf[..]), p, ToBytes(d / 0x1_0000, 2), ToBytes(d, 2));
    }

    method Store64(p: nat, d: int)
      requires p + 8 <= buf.Length
      modifies buf
      ensures buf[..] == Splice(old(buf[..]), p, ToBytes(d, 8))
    {
      Store32(p, d / 0x1_0000_0000);
      Store32(p + 4, d);
      SplitBytes(d, 4);
      SpliceTwice(old(buf[..]), p, ToBytes(d / 0x1_0000_0000, 4), ToBytes(d, 4));
    }

    /** Writes `d` in `w` bytes. */
    method Store(p: nat, d: int, w: nat)
      requires p + w <= buf.Length && (w == 0 || w == 1 || w == 2 || w == 4 || w == 8)
      modifies buf
      ensures buf[..] == Splice(old(buf[..]), p, ToBytes(d, w))
    {
      if w == 1 {
        buf[p] := d % 0x100;
      } else if w == 2 {
        Store16(p, d);
      } else if w == 4 {
        Store32(p, d);
      } else if w == 8 {
        Store64(p, d);
      }
    }

    method Memcpy(p: nat, v: seq<byte>)
      requires p + |v| <= buf.Length
      modifies buf
      ensures buf[..] == Splice(old(buf[..]), p, v)
    {
      forall i | 0 <= i < |v| {
        buf[p + i] := v[i];
      }
    }

    /** A tag and a number of `w` bytes. */
    method WriteNumber(p: nat, tag: byte, d: int, w: nat)
      requires p + 1 + w <= buf.Length && (w == 0 || w == 1 || w == 2 || w == 4 || w == 8)
      modifies buf
      ensures buf[..] == Splice(old(buf[..]), p, [tag] + ToBytes(d, w))
    {
      buf[p] := tag;
      assert buf[..] == Splice(old(buf[..]), p, [tag]);
      hide Splice;
      Store(p + 1, d, w);
      SpliceTwice(old(buf[..]), p, [tag], ToBytes(d, w));
    }

    /** A tag, a length of `w` bytes, the type byte of an extension if any, and the data. */
    method WriteBlob(p: nat, tag: byte, w: nat, typ: seq<byte>, v: seq<byte>)
      requires p + |v| + 1 + w + |typ| <= buf.Length && (w == 0 || w == 1 || w == 2 || w == 4) && |typ| <= 1
      modifies buf
      ensures buf[..] == Splice(old(buf[..]), p, [tag] + ToBytes(|v|, w) + typ + v)
    {
      hide Splice, ToBytes;
      WriteNumber(p, tag, |v|, w);
      Memcpy(p + 1 + w, typ);
      SpliceTwice(old(buf[..]), p, [tag] + ToBytes(|v|, w), typ);
      Memcpy(p + 1 + w + |typ|, v);
      SpliceTwice(old(buf[..]), p, [tag] + ToBytes(|v|, w) + typ, v);
    }

    method TryMove(tag: byte, d: int, w: nat)
      requires Valid() && code == Ok && (w == 0 || w == 1 || w == 2 || w == 4 || w == 8)
      modifies this`current, this`code, buf
      ensures Valid() && State() == Append(old(State()), [tag] + ToBytes(d, w)) && compatible == old(compatible)
      ensures Untouched(old(buf[..]), old(current))
    {
      hide ToBytes, Splice;
      var ok, p := Reserve(1 + w);
      if ok {
        WriteNumber(p, tag, d, w);
        SpliceEnds(old(buf[..]), start, p, [tag] + ToBytes(d, w));
      }
      SameSlices(buf, start, current);
    }

    method TryBlob(tag: byte, w: nat, typ: seq<byte>, v: seq<byte>)
      requires Valid() && code == Ok && (w == 0 || w == 1 || w == 2 || w == 4) && |typ| <= 1
      modifies this`current, this`code, buf
      ensures Valid() && State() == Append(old(State()), [tag] + ToBytes(|v|, w) + typ + v)
      ensures Untouched(old(buf[..]), old(current))
    {
      hide ToBytes, Splice;
      var ok, p := Reserve(|v| + 1 + w + |typ|);
      if ok {
        WriteBlob(p, tag, w, typ, v);
        SpliceEnds(old(buf[..]), start, p, [tag] + ToBytes(|v|, w) + typ + v);
      }
      SameSlices(buf, start, current);
    }

    /** An unsigned 64-bit integer. */
    method PackUnsigned(i: nat)
      requires Valid() && i < U64
      modifies this`current, this`code, buf
      ensures Valid() && State() == Apply(old(State()), Call.PackUnsigned(i))
      ensures Untouched(old(buf[..]), old(current))
    {
      if code != Ok {
        return;
      }
      if i < 0x80 {
        NoNumber(i);
        TryMove(i, 0, 0);
      } else if i < 0x100 {
        TryMove(0xcc, i, 1);
      } else if i < 0x1_0000 {
        TryMove(0xcd, i, 2);
      } else if i < 0x1_0000_0000 {
        TryMove(0xce, i, 4);
      } else {
        TryMove(0xcf, i, 8);
      }
    }

    /** A signed 64-bit integer. */
    method PackSigned(i: int)
      requires Valid() && -I63 <= i < I63
      modifies this`current, this`code, buf
      ensures Valid() && State() == Apply(old(State()), Call.PackSigned(i))
      ensures Untouched(old(buf[..]), old(current))
    {
      if code != Ok {
        return;
      }
      if i > 127 {
        if i < 0x100 {
          TryMove(0xcc, i, 1);
        } else if i < 0x1_0000 {
          TryMove(0xcd, i, 2);
        } else if i < 0x1_0000_0000 {
          TryMove(0xce, i, 4);
        } else {
          TryMove(0xcf, i, 8);
        }
      } else if i >= -32 {
        NoNumber(i % 0x100);
        TryMove(i % 0x100, 0, 0);
      } else if i >= -0x80 {
        TryMove(0xd0, i, 1);
      } else if i >= -0x8000 {
        TryMove(0xd1, i, 2);
      } else if i >= -0x8000_0000 {
        TryMove(0xd2, i, 4);
      } else {
        TryMove(0xd3, i, 8);
      }
    }

    /** A float, given by its bits. */
    method PackFloat(bits: nat)
      requires Valid() && bits < U32
      modifies this`current, this`code, buf
      ensures Valid() && State() == Apply(old(State()), Call.PackFloat(bits))
      ensures Untouched(old(buf[..]), old(current))
    {
      if code != Ok {
        return;
      }
      TryMove(0xca, bits, 4);
    }

    /** A double, given by its bits. */
    method PackDouble(bits: nat)
      requires Valid() && bits < U64
      modifies this`current, this`code, buf
      ensures Valid() && State() == Apply(old(State()), Call.PackDouble(bits))
      ensures Untouched(old(buf[..]), old(current))
    {
      if code != Ok {
        return;
      }
      TryMove(0xcb, bits, 8);
    }

    /** The nil item. */
    method PackNil()
      requires Valid()
      modifies this`current, this`code, buf
      ensures Valid() && State() == Apply(old(State()), Call.PackNil)
      ensures Untouched(old(buf[..]), old(current))
    {
      if code != Ok {
        return;
      }
      NoNumber(0xc0);
      TryMove(0xc0, 0, 0);
    }

    /** A boolean; `cw_pack_true` and `cw_pack_false` are its two cases. */
    method PackBoolean(b: bool)
      requires Valid()
      modifies this`current, this`code, buf
      ensures Valid() && State() == Apply(old(State()), Call.PackBoolean(b))
      ensures Untouched(old(buf[..]), old(current))
    {
      if code != Ok {
        return;
      }
      NoNumber(if b then 0xc3 else 0xc2);
      TryMove(if b then 0xc3 else 0xc2, 0, 0);
    }

    /** The header of an array. */
    method PackArraySize(n: nat)
      requires Valid() && n < U32
      modifies this`current, this`code, buf
      ensures Valid() && State() == Apply(old(State()), Call.PackArraySize(n))
      ensures Untouched(old(buf[..]), old(current))
    {
      if code != Ok {
        return;
      }
      if n < 16 {
        NoNumber(0x90 + n);
        TryMove(0x90 + n, 0, 0);
      } else if n < 65536 {
        TryMove(0xdc, n, 2);
      } else {
        TryMove(0xdd, n, 4);
      }
    }

    /** The header of a map. */
    method PackMapSize(n: nat)
      requires Valid() && n < U32
      modifies this`current, this`code, buf
      ensures Valid() && State() == Apply(old(State()), Call.PackMapSize(n))
      ensures Untouched(old(buf[..]), old(current))
    {
      if code != Ok {
        return;
      }
      if n < 16 {
        NoNumber(0x80 + n);
        TryMove(0x80 + n, 0, 0);
      } else if n < 65536 {
        TryMove(0xde, n, 2);
      } else {
        TryMove(0xdf, n, 4);
      }
    }

    /** A string; the 8-bit length is not used in compatibility mode. */
    method PackStr(v: seq<byte>)
      requires Valid() && |v| < U32 - 6
      modifies this`current, this`code, buf
      ensures Valid() && State() == Apply(old(State()), Call.PackStr(v))
      ensures Untouched(old(buf[..]), old(current))
    {
      if code != Ok {
        return;
      }
      var l := |v|;
      NoType(l, v);
      if l < 32 {
        TryBlob(0xa0 + l, 0, [], v);
      } else if l < 256 && !compatible {
        TryBlob(0xd9, 1, [], v);
      } else if l < 65536 {
        TryBlob(0xda, 2, [], v);
      } else {
        TryBlob(0xdb, 4, [], v);
      }
    }

    /** A binary; in compatibility mode a string. */
    method PackBin(v: seq<byte>)
      requires Valid() && |v| < U32 - 6
      modifies this`current, this`code, buf
      ensures Valid() && State() == Apply(old(State()), Call.PackBin(v))
      ensures Untouched(old(buf[..]), old(current))
    {
      if code != Ok {
        return;
      }
      if compatible {
        PackStr(v);
        return;
      }
      var l := |v|;
      NoType(l, v);
      if l < 256 {
        TryBlob(0xc4, 1, [], v);
      } else if l < 65536 {
        TryBlob(0xc5, 2, [], v);
      } else {
        TryBlob(0xc6, 4, [], v);
      }
    }

    /** An extension; illegal in compatibility mode. */
    method PackExt(typ: int, v: seq<byte>)
      requires Valid() && -128 <= typ < 128 && |v| < U32 - 6
      modifies this`current, this`code, buf
      ensures Valid() && State() == Apply(old(State()), Call.PackExt(typ, v))
      ensures Untouched(old(buf[..]), old(current))
    {
      if code != Ok {
        return;
      }
      if compatible {
        code := IllegalCall;
        return;
      }
      var l, t := |v|, [typ % 0x100];
      NoLength(t, v);
      if l == 1 {
        TryBlob(0xd4, 0, t, v);
      } else if l == 2 {
        TryBlob(0xd5, 0, t, v);
      } else if l == 4 {
        TryBlob(0xd6, 0, t, v);
      } else if l == 8 {
        TryBlob(0xd7, 0, t, v);
      } else if l == 16 {
        TryBlob(0xd8, 0, t, v);
      } else if l < 256 {
        TryBlob(0xc7, 1, t, v);
      } else if l < 65536 {
        TryBlob(0xc8, 2, t, v);
      } else {
        TryBlob(0xc9, 4, t, v);
      }
    }

    /** Raw bytes. Unlike the other routines it does not look at the code first, so it can write after an error. */
    method PackInsert(v: seq<byte>)
      requires Valid()
      modifies this`current, this`code, buf
      ensures Valid()
      ensures var s := old(State());
              State() == if |s.out| + |v| <= s.capacity then s.(out := s.out + v) else s.(code := BufferOverflow)
      ensures Untouched(old(buf[..]), old(current))
    {
      var ok, p := Reserve(|v|);
      if ok {
        Memcpy(p, v);
        SpliceEnds(old(buf[..]), start, p, v);
      }
      SameSlices(buf, start, current);
    }

    /** Nothing but the bytes from `from` up to the cursor differs from the earlier contents `s`. */
    ghost predicate Untouched(s: seq<byte>, from: nat)
      reads this, buf
    {
      from <= current <= buf.Length == |s| && buf[..][..from] == s[..from] && buf[..][current..] == s[current..]
    }
  }

  lemma NoNumber(tag: byte)
    ensures [tag] + ToBytes(0, 0) == [tag]
  {
  }

  lemma NoType(l: nat, v: seq<byte>)
    ensures forall tag: byte, w: nat :: [tag] + ToBytes(l, w) + [] + v == [tag] + ToBytes(l, w) + v
    ensures forall tag: byte :: [tag] + ToBytes(l, 0) + [] + v == [tag] + v
  {
  }

  lemma NoLength(t: seq<byte>, v: seq<byte>)
    ensures forall tag: byte :: [tag] + ToBytes(|v|, 0) + t + v == [tag] + t + v
  {
  }

  lemma SameSlices(a: array<byte>, i: nat, j: nat)
    requires i <= j <= a.Length
    ensures a[i..j] == a[..][i..j]
  {
  }

  lemma SplitBytes(d: int, w: nat)
    requires w == 2 || w == 4
    ensures w == 2 ==> ToBytes(d, 4) == ToBytes(d / 0x1_0000, 2) + ToBytes(d, 2)
    ensures w == 4 ==> ToBytes(d, 8) == ToBytes(d / 0x1_0000_0000, 4) + ToBytes(d, 4)
  {
    assert d / 0x100 / 0x100 == d / 0x1_0000;
    assert d / 0x1_0000 / 0x1_0000 == d / 0x1_0000_0000;
    if w == 2 {
      TwoMore(d, 2);
    } else {
      TwoMore(d, 2);
      TwoMore(d, 6);
      TwoMore(d / 0x1_0000, 4);
    }
  }

  lemma TwoMore(d: int, w: nat)
    ensures ToBytes(d, w + 2) == ToBytes(d / 0x1_0000, w) + ToBytes(d, 2)
  {
  }
}

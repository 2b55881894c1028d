/**
 The MessagePack formats as CWPack writes and reads them: one item at a time, a container being only
 the header that announces how many items follow.
 */
module Format {
  import opened Bytes

  datatype Option<+T> = None | Some(value: T)

  datatype Code = Ok | EndOfInput | BufferOverflow | BufferUnderflow | MalformedInput | IllegalCall

  /** A decoded item. Floating-point values are bit patterns; a blob is its contents. */
  datatype Item =
    | Nil
    | Boolean(b: bool)
    | PosInt(u: nat)
    | NegInt(i: int)
    | Float(bits: nat)
    | Double(bits: nat)
    | Str(data: seq<byte>)
    | Bin(data: seq<byte>)
    | Ext(tag: int, data: seq<byte>)
    | Array(size: nat)
    | Map(size: nat)

  const U32: int := 0x1_0000_0000
  const I31: int := 0x8000_0000
  const U64: int := 0x1_0000_0000_0000_0000
  const I63: int := 0x8000_0000_0000_0000

  // Reading.

  datatype NumberKind = Unsigned | TwosComplement | FloatBits | DoubleBits | ArraySize | MapSize
  datatype BlobKind = StrBlob | BinBlob | ExtBlob

  /** What follows the first byte of an item. A `Blob` of width 0 has the length `fixed`. */
  datatype Layout =
    | Immediate(item: Item)
    | Number(width: nat, kind: NumberKind)
    | Blob(lengthWidth: nat, fixed: nat, blob: BlobKind)
    | Illegal

  function LayoutOf(c: byte): Layout {
    if c < 0x80 then Immediate(PosInt(c))
    else if c < 0x90 then Immediate(Map(c - 0x80))
    else if c < 0xa0 then Immediate(Array(c - 0x90))
    else if c < 0xc0 then Blob(0, c - 0xa0, StrBlob)
    else if c >= 0xe0 then Immediate(NegInt(c - 0x100))
    else if c < 0xd0 then LayoutC(c)
    else LayoutD(c)
  }

  function LayoutC(c: byte): Layout
    requires 0xc0 <= c < 0xd0
  {
    match c
    case 0xc0 => Immediate(Nil)
    case 0xc1 => Illegal
    case 0xc2 => Immediate(Boolean(false))
    case 0xc3 => Immediate(Boolean(true))
    case 0xc4 => Blob(1, 0, BinBlob)
    case 0xc5 => Blob(2, 0, BinBlob)
    case 0xc6 => Blob(4, 0, BinBlob)
    case 0xc7 => Blob(1, 0, ExtBlob)
    case 0xc8 => Blob(2, 0, ExtBlob)
    case 0xc9 => Blob(4, 0, ExtBlob)
    case 0xca => Number(4, FloatBits)
    case 0xcb => Number(8, DoubleBits)
    case 0xcc => Number(1, Unsigned)
    case 0xcd => Number(2, Unsigned)
    case 0xce => Number(4, Unsigned)
    case _ => Number(8, Unsigned)
  }

  function LayoutD(c: byte): Layout
    requires 0xd0 <= c < 0xe0
  {
    match c
    case 0xd0 => Number(1, TwosComplement)
    case 0xd1 => Number(2, TwosComplement)
    case 0xd2 => Number(4, TwosComplement)
    case 0xd3 => Number(8, TwosComplement)
    case 0xd4 => Blob(0, 1, ExtBlob)
    case 0xd5 => Blob(0, 2, ExtBlob)
    case 0xd6 => Blob(0, 4, ExtBlob)
    case 0xd7 => Blob(0, 8, ExtBlob)
    case 0xd8 => Blob(0, 16, ExtBlob)
    case 0xd9 => Blob(1, 0, StrBlob)
    case 0xda => Blob(2, 0, StrBlob)
    case 0xdb => Blob(4, 0, StrBlob)
    case 0xdc => Number(2, ArraySize)
    case 0xdd => Number(4, ArraySize)
    case 0xde => Number(2, MapSize)
    case _ => Number(4, MapSize)
  }

  /** What the table of formats keeps to: widths, lengths of the short blobs, ranges of the one-byte items. */
  predicate Sound(l: Layout) {
    match l
    case Immediate(it) =>
      || it.Nil? || it.Boolean? || (it.PosInt? && it.u < 0x80) || (it.NegInt? && -32 <= it.i < 0)
      || (it.Array? && it.size < 16) || (it.Map? && it.size < 16)
    case Number(w, kind) =>
      (match kind
       case FloatBits => w == 4
       case DoubleBits => w == 8
       case ArraySize => w == 2 || w == 4
       case MapSize => w == 2 || w == 4
       case _ => w == 1 || w == 2 || w == 4 || w == 8)
    case Blob(w, fixed, kind) =>
      || w == 1 || w == 2 || w == 4
      || (w == 0 && kind == StrBlob && fixed < 32)
      || (w == 0 && kind == ExtBlob && (fixed == 1 || fixed == 2 || fixed == 4 || fixed == 8 || fixed == 16))
    case Illegal => true
  }

  lemma LayoutSound(c: byte)
    ensures Sound(LayoutOf(c))
    ensures LayoutOf(c).Illegal? <==> c == 0xc1
  {
  }

  function IntItem(i: int): Item {
    if i >= 0 then PosInt(i) else NegInt(i)
  }

  function NumberItem(kind: NumberKind, u: nat, w: nat): Item {
    match kind
    case Unsigned => PosInt(u)
    case TwosComplement => IntItem(Signed(u, w))
    case FloatBits => Float(u)
    case DoubleBits => Double(u)
    case ArraySize => Array(u)
    case MapSize => Map(u)
  }

  /** The item of a blob whose type byte (for extensions) is `t`. */
  function BlobItem(kind: BlobKind, t: byte, data: seq<byte>): Item {
    match kind
    case StrBlob => Str(data)
    case BinBlob => Bin(data)
    case ExtBlob => Ext(Signed(t, 1), data)
  }

  /** `Done`: an item took `used` bytes. `Fail`: an error, found after stepping over `at` bytes. */
  datatype Parsed = Done(item: Item, used: nat) | Fail(code: Code, at: nat)

  function TypeWidth(kind: BlobKind): nat {
    if kind == ExtBlob then 1 else 0
  }

  /** The item at the front of `t`. */
  function Parse(t: seq<byte>): (r: Parsed)
    ensures r.Done? ==> 0 < r.used <= |t|
    ensures r.Fail? ==> r.at <= |t| && r.code != Ok
  {
    if t == [] then Fail(EndOfInput, 0)
    else match LayoutOf(t[0])
      case Illegal => Fail(MalformedInput, 1)
      case Immediate(item) => Done(item, 1)
      case Number(w, kind) =>
        if |t| < 1 + w then Fail(BufferUnderflow, 1)
        else Done(NumberItem(kind, Num(t[1..1 + w]), w), 1 + w)
      case Blob(w, fixed, kind) =>
        if |t| < 1 + w then Fail(BufferUnderflow, 1)
        else
          var len := if w == 0 then fixed else Num(t[1..1 + w]);
          var h := 1 + w + TypeWidth(kind);
          if |t| < h then Fail(BufferUnderflow, 1 + w)
          else if |t| < h + len then Fail(BufferUnderflow, h)
          else Done(BlobItem(kind, t[h - 1], t[h..h + len]), h + len)
  }

  /** The range of each kind of item. */
  predicate InRange(it: Item) {
    match it
    case PosInt(u) => u < U64
    case NegInt(i) => -I63 <= i < 0
    case Float(bits) => bits < U32
    case Double(bits) => bits < U64
    case Str(data) => |data| < U32
    case Bin(data) => |data| < U32
    case Ext(tag, data) => -128 <= tag < 128 && |data| < U32
    case Array(n) => n < U32
    case Map(n) => n < U32
    case _ => true
  }

  lemma EndFails()
    ensures Parse([]) == Fail(EndOfInput, 0)
  {
  }

  lemma ParsedInRange(t: seq<byte>)
    requires Parse(t).Done?
    ensures InRange(Parse(t).item)
  {
    LayoutSound(t[0]);
    hide LayoutOf;
    Powers();
    match LayoutOf(t[0])
    case Immediate(_) =>
    case Number(w, _) => NumBound(t[1..1 + w]);
    case Blob(w, _, _) => NumBound(t[1..1 + w]);
  }

  // Writing.

  /** A call to one of the packing routines. */
  datatype Call =
    | PackUnsigned(u: nat)
    | PackSigned(i: int)
    | PackFloat(bits: nat)
    | PackDouble(bits: nat)
    | PackNil
    | PackBoolean(b: bool)
    | PackArraySize(n: nat)
    | PackMapSize(n: nat)
    | PackStr(data: seq<byte>)
    | PackBin(data: seq<byte>)
    | PackExt(tag: int, data: seq<byte>)

  /** The argument types of the routines, with blob lengths small enough that `l + 6` does not wrap. */
  predicate ValidCall(c: Call) {
    match c
    case PackUnsigned(u) => u < U64
    case PackSigned(i) => -I63 <= i < I63
    case PackFloat(bits) => bits < U32
    case PackDouble(bits) => bits < U64
    case PackArraySize(n) => n < U32
    case PackMapSize(n) => n < U32
    case PackStr(data) => |data| < U32 - 6
    case PackBin(data) => |data| < U32 - 6
    case PackExt(tag, data) => -128 <= tag < 128 && |data| < U32 - 6
    case _ => true
  }

  function EncUnsigned(u: nat): seq<byte>
    requires u < U64
  {
    if u < 0x80 then [u]
    else if u < 0x100 then [0xcc] + ToBytes(u, 1)
    else if u < 0x1_0000 then [0xcd] + ToBytes(u, 2)
    else if u < U32 then [0xce] + ToBytes(u, 4)
    else [0xcf] + ToBytes(u, 8)
  }

  function EncSigned(i: int): seq<byte>
    requires -I63 <= i < I63
  {
    if i > 127 then EncUnsigned(i)
    else if i >= -32 then [i % 0x100]
    else if i >= -0x80 then [0xd0] + ToBytes(i, 1)
    else if i >= -0x8000 then [0xd1] + ToBytes(i, 2)
    else if i >= -0x8000_0000 then [0xd2] + ToBytes(i, 4)
    else [0xd3] + ToBytes(i, 8)
  }

  /** Header of a container: `fix` is the tag of the one-byte form, `tag16` and `tag32` those of the others. */
  function EncSize(n: nat, fix: byte, tag16: byte, tag32: byte): seq<byte>
    requires fix < 0xf0 && n < U32
  {
    if n < 16 then [fix + n]
    else if n < 0x1_0000 then [tag16] + ToBytes(n, 2)
    else [tag32] + ToBytes(n, 4)
  }

  function StrHead(l: nat, compatible: bool): seq<byte>
    requires l < U32
  {
    if l < 32 then [0xa0 + l]
    else if l < 0x100 && !compatible then [0xd9] + ToBytes(l, 1)
    else if l < 0x1_0000 then [0xda] + ToBytes(l, 2)
    else [0xdb] + ToBytes(l, 4)
  }

  function BinHead(l: nat): seq<byte>
    requires l < U32
  {
    if l < 0x100 then [0xc4] + ToBytes(l, 1)
    else if l < 0x1_0000 then [0xc5] + ToBytes(l, 2)
    else [0xc6] + ToBytes(l, 4)
  }

  function ExtHead(tag: int, l: nat): seq<byte>
    requires l < U32
  {
    (match l
     case 1 => [0xd4]
     case 2 => [0xd5]
     case 4 => [0xd6]
     case 8 => [0xd7]
     case 16 => [0xd8]
     case _ =>
       if l < 0x100 then [0xc7] + ToBytes(l, 1)
       else if l < 0x1_0000 then [0xc8] + ToBytes(l, 2)
       else [0xc9] + ToBytes(l, 4)) + [tag % 0x100]
  }

  /** The bytes a call appends, or `None` where the call is illegal. */
  function Encoding(c: Call, compatible: bool): Option<seq<byte>>
    requires ValidCall(c)
  {
    match c
    case PackUnsigned(u) => Some(EncUnsigned(u))
    case PackSigned(i) => Some(EncSigned(i))
    case PackFloat(bits) => Some([0xca] + ToBytes(bits, 4))
    case PackDouble(bits) => Some([0xcb] + ToBytes(bits, 8))
    case PackNil => Some([0xc0])
    case PackBoolean(b) => Some([if b then 0xc3 else 0xc2])
    case PackArraySize(n) => Some(EncSize(n, 0x90, 0xdc, 0xdd))
    case PackMapSize(n) => Some(EncSize(n, 0x80, 0xde, 0xdf))
    case PackStr(data) => Some(StrHead(|data|, compatible) + data)
    case PackBin(data) =>
      Some((if compatible then StrHead(|data|, true) else BinHead(|data|)) + data)
    case PackExt(tag, data) =>
      if compatible then None else Some(ExtHead(tag, |data|) + data)
  }

  /** The item a call means: in compatibility mode a binary becomes a string. */
  function ItemOf(c: Call, compatible: bool): Item {
    match c
    case PackUnsigned(u) => PosInt(u)
    case PackSigned(i) => IntItem(i)
    case PackFloat(bits) => Float(bits)
    case PackDouble(bits) => Double(bits)
    case PackNil => Nil
    case PackBoolean(b) => Boolean(b)
    case PackArraySize(n) => Array(n)
    case PackMapSize(n) => Map(n)
    case PackStr(data) => Str(data)
    case PackBin(data) => if compatible then Str(data) else Bin(data)
    case PackExt(tag, data) => Ext(tag, data)
  }

  // One item written, then read back.

  lemma ReadImmediate(c: byte, rest: seq<byte>)
    requires LayoutOf(c).Immediate?
    ensures Parse([c] + rest) == Done(LayoutOf(c).item, 1)
  {
  }

  lemma ReadNumber(c: byte, n: int, w: nat, rest: seq<byte>)
    requires LayoutOf(c).Number? && LayoutOf(c).width == w
    ensures Parse([c] + ToBytes(n, w) + rest) == Done(NumberItem(LayoutOf(c).kind, Num(ToBytes(n, w)), w), 1 + w)
  {
  }

  lemma ReadBlob(head: seq<byte>, data: seq<byte>, rest: seq<byte>)
    requires head != [] && LayoutOf(head[0]).Blob?
    requires var l := LayoutOf(head[0]);
             && |head| == 1 + l.lengthWidth + TypeWidth(l.blob)
             && |data| == (if l.lengthWidth == 0 then l.fixed else Num(head[1..1 + l.lengthWidth]))
    ensures Parse(head + data + rest)
         == Done(BlobItem(LayoutOf(head[0]).blob, head[|head| - 1], data), |head| + |data|)
  {
    var t := head + data + rest;
    var w := LayoutOf(head[0]).lengthWidth;
    assert t[1..1 + w] == head[1..1 + w];
    assert t[|head|..|head| + |data|] == data;
  }

  lemma ReadUnsigned(u: nat, rest: seq<byte>)
    requires u < U64
    ensures Parse(EncUnsigned(u) + rest) == Done(PosInt(u), |EncUnsigned(u)|)
  {
    hide Parse;
    Powers();
    if u < 0x80 {
      ReadImmediate(u, rest);
    } else {
      var w := if u < 0x100 then 1 else if u < 0x1_0000 then 2 else if u < U32 then 4 else 8;
      var c := if u < 0x100 then 0xcc else if u < 0x1_0000 then 0xcd else if u < U32 then 0xce else 0xcf;
      NumToBytes(u, w);
      ReadNumber(c, u, w, rest);
    }
  }

  lemma ReadSigned(i: int, rest: seq<byte>)
    requires -I63 <= i < I63
    ensures Parse(EncSigned(i) + rest) == Done(IntItem(i), |EncSigned(i)|)
  {
    hide Parse;
    Powers();
    if i > 127 {
      ReadUnsigned(i, rest);
    } else if i >= -32 {
      ReadImmediate(i % 0x100, rest);
    } else {
      var w := if i >= -0x80 then 1 else if i >= -0x8000 then 2 else if i >= -0x8000_0000 then 4 else 8;
      var c := if i >= -0x80 then 0xd0 else if i >= -0x8000 then 0xd1 else if i >= -0x8000_0000 then 0xd2 else 0xd3;
      SignedToBytes(i, w);
      ReadNumber(c, i, w, rest);
    }
  }

  lemma ReadSize(n: nat, isMap: bool, rest: seq<byte>)
    requires n < U32
    ensures !isMap ==> var e := EncSize(n, 0x90, 0xdc, 0xdd); Parse(e + rest) == Done(Array(n), |e|)
    ensures isMap ==> var e := EncSize(n, 0x80, 0xde, 0xdf); Parse(e + rest) == Done(Map(n), |e|)
  {
    hide Parse;
    Powers();
    if n < 16 {
      ReadImmediate(if isMap then 0x80 + n else 0x90 + n, rest);
    } else {
      var w := if n < 0x1_0000 then 2 else 4;
      NumToBytes(n, w);
      ReadNumber(if isMap then (if w == 2 then 0xde else 0xdf) else (if w == 2 then 0xdc else 0xdd), n, w, rest);
    }
  }

  /** A blob whose length takes `w > 0` bytes; `tail` is the type byte of an extension. */
  lemma ReadLong(c: byte, w: nat, tail: seq<byte>, data: seq<byte>, rest: seq<byte>)
    requires w > 0 && |data| < Pow256(w)
    requires LayoutOf(c).Blob? && LayoutOf(c).lengthWidth == w && |tail| == TypeWidth(LayoutOf(c).blob)
    ensures var head := [c] + ToBytes(|data|, w) + tail;
            Parse(head + data + rest) == Done(BlobItem(LayoutOf(c).blob, head[|head| - 1], data), |head| + |data|)
  {
    var head := [c] + ToBytes(|data|, w) + tail;
    NumToBytes(|data|, w);
    assert head[1..1 + w] == ToBytes(|data|, w);
    ReadBlob(head, data, rest);
  }

  lemma ReadStr(data: seq<byte>, compatible: bool, rest: seq<byte>)
    requires |data| < U32
    ensures var e := StrHead(|data|, compatible) + data; Parse(e + rest) == Done(Str(data), |e|)
  {
    hide Parse;
    Powers();
    var l := |data|;
    if l < 32 {
      ReadBlob([0xa0 + l], data, rest);
    } else {
      var w := if l < 0x100 && !compatible then 1 else if l < 0x1_0000 then 2 else 4;
      var c := if w == 1 then 0xd9 else if w == 2 then 0xda else 0xdb;
      ReadLong(c, w, [], data, rest);
      assert [c] + ToBytes(l, w) + [] == StrHead(l, compatible);
    }
  }

  lemma ReadBin(data: seq<byte>, rest: seq<byte>)
    requires |data| < U32
    ensures var e := BinHead(|data|) + data; Parse(e + rest) == Done(Bin(data), |e|)
  {
    hide Parse;
    Powers();
    var l := |data|;
    var w := if l < 0x100 then 1 else if l < 0x1_0000 then 2 else 4;
    var c := if w == 1 then 0xc4 else if w == 2 then 0xc5 else 0xc6;
    ReadLong(c, w, [], data, rest);
    assert [c] + ToBytes(l, w) + [] == BinHead(l);
  }

  lemma ReadExt(tag: int, data: seq<byte>, rest: seq<byte>)
    requires |data| < U32 && -128 <= tag < 128
    ensures var e := ExtHead(tag, |data|) + data; Parse(e + rest) == Done(Ext(tag, data), |e|)
  {
    hide Parse;
    Powers();
    var l := |data|;
    if l == 1 || l == 2 || l == 4 || l == 8 || l == 16 {
      ReadBlob(ExtHead(tag, l), data, rest);
    } else {
      var w := if l < 0x100 then 1 else if l < 0x1_0000 then 2 else 4;
      var c := if w == 1 then 0xc7 else if w == 2 then 0xc8 else 0xc9;
      ReadLong(c, w, [tag % 0x100], data, rest);
    }
  }

  /** Every legal call writes bytes that read back as the item it means, whatever follows them. */
  lemma ReadBack(c: Call, compatible: bool, rest: seq<byte>)
    requires ValidCall(c) && Encoding(c, compatible).Some?
    ensures var e := Encoding(c, compatible).value; Parse(e + rest) == Done(ItemOf(c, compatible), |e|)
  {
    hide Parse;
    Powers();
    match c
    case PackUnsigned(u) => ReadUnsigned(u, rest);
    case PackSigned(i) => ReadSigned(i, rest);
    case PackFloat(bits) => NumToBytes(bits, 4); ReadNumber(0xca, bits, 4, rest);
    case PackDouble(bits) => NumToBytes(bits, 8); ReadNumber(0xcb, bits, 8, rest);
    case PackNil => ReadImmediate(0xc0, rest);
    case PackBoolean(b) => ReadImmediate(if b then 0xc3 else 0xc2, rest);
    case PackArraySize(n) => ReadSize(n, false, rest);
    case PackMapSize(n) => ReadSize(n, true, rest);
    case PackStr(data) => ReadStr(data, compatible, rest);
    case PackBin(data) => if compatible { ReadStr(data, true, rest); } else { ReadBin(data, rest); }
    case PackExt(tag, data) => ReadExt(tag, data, rest);
  }
}

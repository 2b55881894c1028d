/**
 The MessagePack formats as a table: which bytes spell which item. Reading is exactly this relation, on whole items
 and on items that are cut off, and writing picks the shortest spelling.
 */
module Spelling {
  import opened Bytes
  import opened Format
  import opened Unpacker
  import opened Stream
  import opened Normal

  /** The parts of a spelling: its first byte, the length of a blob, the type of an extension, and what remains. */
  datatype Form = Form(tag: byte, length: seq<byte>, typ: seq<byte>, body: seq<byte>)

  function Spelled(f: Form): seq<byte> {
    [f.tag] + f.length + f.typ + f.body
  }

  function Bare(tag: byte): Form {
    Form(tag, [], [], [])
  }

  function Wide(tag: byte, n: int, w: nat): Form {
    Form(tag, [], [], ToBytes(n, w))
  }

  // The table.

  predicate UnsignedForm(f: Form, u: nat) {
    || (u < 0x100 && f == Wide(0xcc, u, 1))
    || (u < 0x1_0000 && f == Wide(0xcd, u, 2))
    || (u < U32 && f == Wide(0xce, u, 4))
    || (u < U64 && f == Wide(0xcf, u, 8))
  }

  predicate SignedForm(f: Form, i: int) {
    || (-0x80 <= i < 0x80 && f == Wide(0xd0, i, 1))
    || (-0x8000 <= i < 0x8000 && f == Wide(0xd1, i, 2))
    || (-I31 <= i < I31 && f == Wide(0xd2, i, 4))
    || (-I63 <= i < I63 && f == Wide(0xd3, i, 8))
  }

  predicate SizeForm(f: Form, n: nat, fix: byte, tag16: byte, tag32: byte)
    requires fix < 0xf0
  {
    || (n < 16 && f == Bare(fix + n))
    || (n < 0x1_0000 && f == Wide(tag16, n, 2))
    || (n < U32 && f == Wide(tag32, n, 4))
  }

  /** A blob with its length in `w` bytes. */
  predicate Counted(f: Form, tag: byte, w: nat, typ: seq<byte>, data: seq<byte>) {
    |data| < Pow256(w) && f == Form(tag, ToBytes(|data|, w), typ, data)
  }

  predicate StrForm(f: Form, data: seq<byte>) {
    || (|data| < 32 && f == Form(0xa0 + |data|, [], [], data))
    || Counted(f, 0xd9, 1, [], data) || Counted(f, 0xda, 2, [], data) || Counted(f, 0xdb, 4, [], data)
  }

  predicate BinForm(f: Form, data: seq<byte>) {
    Counted(f, 0xc4, 1, [], data) || Counted(f, 0xc5, 2, [], data) || Counted(f, 0xc6, 4, [], data)
  }

  predicate FixExtForm(f: Form, typ: seq<byte>, data: seq<byte>) {
    || (|data| == 1 && f == Form(0xd4, [], typ, data))
    || (|data| == 2 && f == Form(0xd5, [], typ, data))
    || (|data| == 4 && f == Form(0xd6, [], typ, data))
    || (|data| == 8 && f == Form(0xd7, [], typ, data))
    || (|data| == 16 && f == Form(0xd8, [], typ, data))
  }

  predicate ExtForm(f: Form, typ: seq<byte>, data: seq<byte>) {
    || FixExtForm(f, typ, data)
    || Counted(f, 0xc7, 1, typ, data) || Counted(f, 0xc8, 2, typ, data) || Counted(f, 0xc9, 4, typ, data)
  }

  /** The form `f` spells the item `it`. */
  predicate Means(f: Form, it: Item) {
    match it
    case Nil => f == Bare(0xc0)
    case Boolean(b) => f == Bare(if b then 0xc3 else 0xc2)
    case PosInt(u) => (u < 0x80 && f == Bare(u)) || UnsignedForm(f, u) || SignedForm(f, u)
    case NegInt(i) => i < 0 && ((-32 <= i && f == Bare(0x100 + i)) || SignedForm(f, i))
    case Float(bits) => bits < U32 && f == Wide(0xca, bits, 4)
    case Double(bits) => bits < U64 && f == Wide(0xcb, bits, 8)
    case Str(data) => StrForm(f, data)
    case Bin(data) => BinForm(f, data)
    case Ext(tag, data) => -128 <= tag < 128 && ExtForm(f, [tag % 0x100], data)
    case Array(n) => SizeForm(f, n, 0x90, 0xdc, 0xdd)
    case Map(n) => SizeForm(f, n, 0x80, 0xde, 0xdf)
  }

  // Every spelling is read as its item.

  lemma ReadsWide(tag: byte, n: int, w: nat, rest: seq<byte>)
    requires LayoutOf(tag).Number? && LayoutOf(tag).width == w
    ensures |Spelled(Wide(tag, n, w))| == 1 + w
    ensures Parse(Spelled(Wide(tag, n, w)) + rest) == Done(NumberItem(LayoutOf(tag).kind, Num(ToBytes(n, w)), w), 1 + w)
  {
    hide Parse, LayoutOf;
    ReadNumber(tag, n, w, rest);
    assert Spelled(Wide(tag, n, w)) == [tag] + ToBytes(n, w);
  }

  lemma ReadsBare(tag: byte, rest: seq<byte>)
    requires LayoutOf(tag).Immediate?
    ensures |Spelled(Bare(tag))| == 1 && Parse(Spelled(Bare(tag)) + rest) == Done(LayoutOf(tag).item, 1)
  {
    hide Parse, LayoutOf;
    ReadImmediate(tag, rest);
    assert Spelled(Bare(tag)) == [tag];
  }

  lemma ReadsInteger(f: Form, i: int, rest: seq<byte>)
    requires (i >= 0 && UnsignedForm(f, i)) || SignedForm(f, i)
    ensures Parse(Spelled(f) + rest) == Done(IntItem(i), |Spelled(f)|)
  {
    hide Parse, ToBytes;
    Powers();
    var w := |f.body|;
    if f.tag < 0xd0 {
      NumToBytes(i, w);
      ReadsWide(f.tag, i, w, rest);
    } else {
      SignedToBytes(i, w);
      ReadsWide(f.tag, i, w, rest);
    }
  }

  lemma ReadsSize(f: Form, n: nat, isMap: bool, rest: seq<byte>)
    requires if isMap then SizeForm(f, n, 0x80, 0xde, 0xdf) else SizeForm(f, n, 0x90, 0xdc, 0xdd)
    ensures Parse(Spelled(f) + rest) == Done(if isMap then Map(n) else Array(n), |Spelled(f)|)
  {
    hide Parse, ToBytes;
    Powers();
    var w := |f.body|;
    if w == 0 {
      ReadsBare(f.tag, rest);
    } else {
      NumToBytes(n, w);
      ReadsWide(f.tag, n, w, rest);
    }
  }

  lemma ReadsBlob(f: Form, rest: seq<byte>)
    requires LayoutOf(f.tag).Blob?
    requires var Blob(w, fixed, kind) := LayoutOf(f.tag);
             && |f.length| == w && |f.typ| == TypeWidth(kind)
             && |f.body| == if w == 0 then fixed else Num(f.length)
    ensures Parse(Spelled(f) + rest)
         == Done(BlobItem(LayoutOf(f.tag).blob, Spelled(f)[|f.length| + |f.typ|], f.body), |Spelled(f)|)
  {
    hide Parse, LayoutOf;
    var head := [f.tag] + f.length + f.typ;
    assert head[1..1 + |f.length|] == f.length;
    ReadBlob(head, f.body, rest);
  }

  lemma ReadsStr(f: Form, data: seq<byte>, rest: seq<byte>)
    requires StrForm(f, data)
    ensures Parse(Spelled(f) + rest) == Done(Str(data), |Spelled(f)|)
  {
    hide Parse, ToBytes, Pow256;
    NumToBytes(|data|, |f.length|);
    ReadsBlob(f, rest);
  }

  lemma ReadsBin(f: Form, data: seq<byte>, rest: seq<byte>)
    requires BinForm(f, data)
    ensures Parse(Spelled(f) + rest) == Done(Bin(data), |Spelled(f)|)
  {
    hide Parse, ToBytes, Pow256;
    NumToBytes(|data|, |f.length|);
    ReadsBlob(f, rest);
  }

  lemma ReadsExt(f: Form, tag: int, data: seq<byte>, rest: seq<byte>)
    requires -128 <= tag < 128 && ExtForm(f, [tag % 0x100], data)
    ensures Parse(Spelled(f) + rest) == Done(Ext(tag, data), |Spelled(f)|)
  {
    hide Parse, ToBytes;
    Powers();
    hide Pow256;
    NumToBytes(|data|, |f.length|);
    ReadsBlob(f, rest);
  }

  /** Every spelling of every item is read as the item, whatever follows it. */
  lemma ReadsSpelling(f: Form, it: Item, rest: seq<byte>)
    requires Means(f, it)
    ensures Parse(Spelled(f) + rest) == Done(it, |Spelled(f)|)
  {
    hide Parse, ToBytes, Spelled;
    Powers();
    match it {
      case Nil => ReadsBare(0xc0, rest);
      case Boolean(b) => ReadsBare(f.tag, rest);
      case PosInt(u) => if u < 0x80 && f == Bare(u) { ReadsBare(u, rest); } else { ReadsInteger(f, u, rest); }
      case NegInt(i) => if |f.body| == 0 { ReadsBare(f.tag, rest); } else { ReadsInteger(f, i, rest); }
      case Float(bits) => NumToBytes(bits, 4); ReadsWide(0xca, bits, 4, rest);
      case Double(bits) => NumToBytes(bits, 8); ReadsWide(0xcb, bits, 8, rest);
      case Str(data) => ReadsStr(f, data, rest);
      case Bin(data) => ReadsBin(f, data, rest);
      case Ext(tag, data) => ReadsExt(f, tag, data, rest);
      case Array(n) => ReadsSize(f, n, false, rest);
      case Map(n) => ReadsSize(f, n, true, rest);
    }
  }

  // Whatever is read was a spelling.

  /** The first byte tells the layout, and the layout the first byte. */
  lemma TagOf(c: byte)
    ensures match LayoutOf(c)
            case Illegal => c == 0xc1
            case Immediate(it) => Means(Bare(c), it)
            case Number(w, Unsigned) =>
              c == if w == 1 then 0xcc else if w == 2 then 0xcd else if w == 4 then 0xce else 0xcf
            case Number(w, TwosComplement) =>
              c == if w == 1 then 0xd0 else if w == 2 then 0xd1 else if w == 4 then 0xd2 else 0xd3
            case Number(w, FloatBits) => c == 0xca
            case Number(w, DoubleBits) => c == 0xcb
            case Number(w, ArraySize) => c == if w == 2 then 0xdc else 0xdd
            case Number(w, MapSize) => c == if w == 2 then 0xde else 0xdf
            case Blob(w, fixed, StrBlob) =>
              c == if w == 0 then 0xa0 + fixed else if w == 1 then 0xd9 else if w == 2 then 0xda else 0xdb
            case Blob(w, fixed, BinBlob) =>
              w > 0 && c == if w == 1 then 0xc4 else if w == 2 then 0xc5 else 0xc6
            case Blob(w, fixed, ExtBlob) =>
              c == if w == 0 then (if fixed == 1 then 0xd4 else if fixed == 2 then 0xd5 else if fixed == 4 then 0xd6
                                   else if fixed == 8 then 0xd7 else 0xd8)
                   else if w == 1 then 0xc7 else if w == 2 then 0xc8 else 0xc9
  {
    hide ToBytes;
  }

  lemma NumberSpelled(c: byte, b: seq<byte>)
    requires LayoutOf(c).Number? && LayoutOf(c).width == |b|
    ensures Means(Form(c, [], [], b), NumberItem(LayoutOf(c).kind, Num(b), |b|))
  {
    TagOf(c);
    LayoutSound(c);
    hide LayoutOf, ToBytes;
    Powers();
    NumBound(b);
    ToBytesNum(b);
    ToBytesSigned(b);
    hide Num, Pow256;
  }

  lemma BlobSpelled(f: Form)
    requires LayoutOf(f.tag).Blob?
    requires var Blob(w, fixed, kind) := LayoutOf(f.tag);
             && |f.length| == w && |f.typ| == TypeWidth(kind)
             && |f.body| == if w == 0 then fixed else Num(f.length)
    ensures Means(f, BlobItem(LayoutOf(f.tag).blob, if f.typ == [] then 0 else f.typ[0], f.body))
  {
    TagOf(f.tag);
    LayoutSound(f.tag);
    hide LayoutOf, ToBytes;
    Powers();
    NumBound(f.length);
    ToBytesNum(f.length);
    hide Num, Pow256;
  }

  /** Whatever was read as an item spells it. */
  lemma ParsedIsSpelled(t: seq<byte>) returns (f: Form)
    requires Parse(t).Done?
    ensures Means(f, Parse(t).item) && Spelled(f) == t[..Parse(t).used]
  {
    TagOf(t[0]);
    hide LayoutOf, Means;
    match LayoutOf(t[0])
    case Immediate(_) =>
      f := Bare(t[0]);
    case Number(w, _) =>
      f := Form(t[0], [], [], t[1..1 + w]);
      NumberSpelled(t[0], t[1..1 + w]);
    case Blob(_, _, _) =>
      f := BlobParsed(t);
  }

  lemma BlobParsed(t: seq<byte>) returns (f: Form)
    requires Parse(t).Done? && LayoutOf(t[0]).Blob?
    ensures Means(f, Parse(t).item) && Spelled(f) == t[..Parse(t).used]
  {
    hide LayoutOf, Means;
    var Blob(w, fixed, kind) := LayoutOf(t[0]);
    var len := if w == 0 then fixed else Num(t[1..1 + w]);
    var h := 1 + w + TypeWidth(kind);
    var typ := t[1 + w..h];
    f := Form(t[0], t[1..1 + w], typ, t[h..h + len]);
    BlobSpelled(f);
    assert kind == ExtBlob ==> typ[0] == t[h - 1];
    Joined(t, 1 + w, h, h + len);
  }

  lemma Joined(t: seq<byte>, a: nat, b: nat, c: nat)
    requires 0 < a <= b <= c <= |t|
    ensures Spelled(Form(t[0], t[1..a], t[a..b], t[b..c])) == t[..c]
  {
  }

  /** Reading is the table: an item is read from `t` exactly when the bytes taken spell it. */
  lemma ParseIff(t: seq<byte>, it: Item, n: nat)
    ensures Parse(t) == Done(it, n) <==> n <= |t| && exists f :: Means(f, it) && Spelled(f) == t[..n]
  {
    if Parse(t) == Done(it, n) {
      var f := ParsedIsSpelled(t);
    }
    hide Parse, Means, Spelled;
    if n <= |t| && exists f :: Means(f, it) && Spelled(f) == t[..n] {
      var f :| Means(f, it) && Spelled(f) == t[..n];
      ReadsSpelling(f, it, t[n..]);
      assert t[..n] + t[n..] == t;
    }
  }

  // Items that are cut off.

  /** The parts of a form are as long as its first byte says. */
  ghost predicate Fitting(f: Form) {
    match LayoutOf(f.tag)
    case Illegal => false
    case Immediate(_) => f == Bare(f.tag)
    case Number(w, _) => f.length == [] && f.typ == [] && |f.body| == w
    case Blob(w, fixed, kind) =>
      |f.length| == w && |f.typ| == TypeWidth(kind) && |f.body| == if w == 0 then fixed else Num(f.length)
  }

  lemma MeansFits(f: Form, it: Item)
    requires Means(f, it)
    ensures Fitting(f) && (IsBlob(it) <==> LayoutOf(f.tag).Blob?)
  {
    if IsBlob(it) {
      BlobFits(f, it);
    } else {
      hide ToBytes;
      match it {
        case PosInt(u) => IntegerFits(f, u);
        case NegInt(i) => IntegerFits(f, i);
        case _ =>
      }
    }
  }

  lemma IntegerFits(f: Form, i: int)
    requires f.body == [] || SignedForm(f, i) || (i >= 0 && UnsignedForm(f, i))
    ensures f.body != [] ==> Fitting(f) && LayoutOf(f.tag).Number?
  {
    hide ToBytes;
  }

  lemma BlobFits(f: Form, it: Item)
    requires Means(f, it) && IsBlob(it)
    ensures Fitting(f) && LayoutOf(f.tag).Blob?
  {
    hide ToBytes;
    Powers();
    NumToBytes(|it.data|, |f.length|);
    hide Num, Pow256;
    match it {
      case Str(_) =>
      case Bin(_) =>
      case Ext(_, _) =>
    }
  }

  /** Where reading stops when only `n` bytes of the form are there: behind the last part that is complete. */
  function CutAt(f: Form, n: nat): nat {
    if n < 1 + |f.length| then 1
    else if n < 1 + |f.length| + |f.typ| then 1 + |f.length|
    else 1 + |f.length| + |f.typ|
  }

  /** A form that is cut off is an underflow there; the length of a blob is then known if it was complete. */
  lemma CutOffFails(f: Form, it: Item, t: seq<byte>)
    requires Means(f, it) && t != [] && t < Spelled(f)
    ensures Parse(t) == Fail(BufferUnderflow, CutAt(f, |t|))
    ensures LengthSeen(t) == if IsBlob(it) && (if f.length == [] then |t| >= 1 + |f.typ| else |t| >= 1 + |f.length|)
                             then Some(|f.body|) else None
  {
    MeansFits(f, it);
    hide LayoutOf, Means;
    var s := Spelled(f);
    assert t == s[..|t|];
    assert s[1..1 + |f.length|] == f.length;
    if |t| >= 1 + |f.length| {
      assert t[1..1 + |f.length|] == s[1..1 + |f.length|];
    }
  }

  /** An item is cut off in `t`, and reading stops after `at` bytes. */
  ghost predicate CutOff(t: seq<byte>, at: nat) {
    exists f, it :: Means(f, it) && t < Spelled(f) && CutAt(f, |t|) == at
  }

  /** The errors of reading, each with its place: nothing there, the byte that starts no item, or an item cut off. */
  lemma FailIff(t: seq<byte>, code: Code, at: nat)
    ensures Parse(t) == Fail(code, at) <==>
              || (t == [] && code == EndOfInput && at == 0)
              || (t != [] && t[0] == 0xc1 && code == MalformedInput && at == 1)
              || (t != [] && code == BufferUnderflow && CutOff(t, at))
  {
    FailureCodes(t);
    EndFails();
    if Parse(t) == Fail(BufferUnderflow, at) && t != [] {
      UnderflowIsTruncated(t);
      var q :| q != [] && Complete(t + q);
      var f := ParsedIsSpelled(t + q);
      var it := Parse(t + q).item;
      assert Spelled(f) == t + q;
      CutOffFails(f, it, t);
    }
    hide Parse, Means, Spelled;
    if t != [] && CutOff(t, at) {
      var f, it :| Means(f, it) && t < Spelled(f) && CutAt(f, |t|) == at;
      CutOffFails(f, it, t);
    }
  }

  // Writing.

  /** The formats in use: unsigned ones for non-negative integers, and in compatibility mode only the older ones. */
  predicate Preferred(f: Form, it: Item, compatible: bool) {
    && (it.PosInt? ==> f.tag < 0xd0)
    && (compatible ==> !(0xc4 <= f.tag <= 0xc9) && !(0xd4 <= f.tag <= 0xd9))
  }

  lemma SpelledLength(f: Form)
    ensures |Spelled(f)| == 1 + |f.length| + |f.typ| + |f.body|
  {
  }

  /** Of the formats in use, no two spell an item at the same length. */
  lemma LengthDecides(f: Form, g: Form, it: Item, compatible: bool)
    requires Means(f, it) && Preferred(f, it, compatible) && Means(g, it) && Preferred(g, it, compatible)
    requires |Spelled(f)| == |Spelled(g)|
    ensures f == g
  {
    SpelledLength(f);
    SpelledLength(g);
    if !IsBlob(it) {
      FormLength(f, it);
      FormLength(g, it);
    }
    hide ToBytes, Spelled, Pow256, SizeForm, StrForm, BinForm, ExtForm, SignedForm, UnsignedForm;
    match it {
      case PosInt(u) => PosIntByLength(f, g, u);
      case NegInt(i) => NegIntByLength(f, g, i);
      case Str(data) => StrByLength(f, g, data);
      case Bin(data) => BinByLength(f, g, data);
      case Ext(tag, data) => ExtByLength(f, g, [tag % 0x100], data);
      case Array(n) => SizeByLength(f, g, n, 0x90, 0xdc, 0xdd);
      case Map(n) => SizeByLength(f, g, n, 0x80, 0xde, 0xdf);
      case _ =>
    }
  }

  lemma FormLength(f: Form, it: Item)
    requires Means(f, it) && !IsBlob(it)
    ensures f.length == [] && f.typ == []
  {
    hide ToBytes;
  }

  lemma PosIntByLength(f: Form, g: Form, u: nat)
    requires Means(f, PosInt(u)) && Means(g, PosInt(u)) && f.tag < 0xd0 && g.tag < 0xd0 && |f.body| == |g.body|
    ensures f == g
  {
    hide ToBytes;
  }

  lemma NegIntByLength(f: Form, g: Form, i: int)
    requires Means(f, NegInt(i)) && Means(g, NegInt(i)) && |f.body| == |g.body|
    ensures f == g
  {
    hide ToBytes;
  }

  lemma SizeByLength(f: Form, g: Form, n: nat, fix: byte, tag16: byte, tag32: byte)
    requires fix < 0xf0 && SizeForm(f, n, fix, tag16, tag32) && SizeForm(g, n, fix, tag16, tag32)
    requires |f.body| == |g.body|
    ensures f == g
  {
    hide ToBytes;
  }

  lemma StrByLength(f: Form, g: Form, data: seq<byte>)
    requires StrForm(f, data) && StrForm(g, data) && |Spelled(f)| == |Spelled(g)|
    ensures f == g
  {
    hide ToBytes, Pow256;
  }

  lemma BinByLength(f: Form, g: Form, data: seq<byte>)
    requires BinForm(f, data) && BinForm(g, data) && |Spelled(f)| == |Spelled(g)|
    ensures f == g
  {
    hide ToBytes, Pow256;
  }

  lemma ExtByLength(f: Form, g: Form, typ: seq<byte>, data: seq<byte>)
    requires ExtForm(f, typ, data) && ExtForm(g, typ, data) && |Spelled(f)| == |Spelled(g)|
    ensures f == g
  {
    hide ToBytes, Pow256;
  }

  lemma NoShorterNumber(c: Call, compatible: bool, f: Form)
    requires ValidCall(c) && Means(f, ItemOf(c, compatible)) && !IsBlob(ItemOf(c, compatible))
    ensures |Encoding(c, compatible).value| <= |Spelled(f)|
  {
    SpelledLength(f);
    hide ToBytes, Spelled;
  }

  lemma NoShorterBlob(c: Call, compatible: bool, f: Form)
    requires ValidCall(c) && Encoding(c, compatible).Some? && IsBlob(ItemOf(c, compatible))
    requires Means(f, ItemOf(c, compatible)) && Preferred(f, ItemOf(c, compatible), compatible)
    ensures |Encoding(c, compatible).value| <= |Spelled(f)|
  {
    SpelledLength(f);
    Powers();
    hide ToBytes, Spelled, Pow256;
  }

  /** What a call writes is, of the formats in use, the one shortest spelling of its item. */
  lemma WritesShortest(c: Call, compatible: bool) returns (f: Form)
    requires ValidCall(c) && Encoding(c, compatible).Some?
    ensures var it := ItemOf(c, compatible);
            && Means(f, it) && Preferred(f, it, compatible) && Spelled(f) == Encoding(c, compatible).value
            && forall g :: Means(g, it) && Preferred(g, it, compatible) && g != f ==> |Spelled(g)| > |Spelled(f)|
  {
    var it, e := ItemOf(c, compatible), Encoding(c, compatible).value;
    ReadBack(c, compatible, []);
    assert e + [] == e;
    f := ParsedIsSpelled(e);
    assert f.tag == e[0];
    WrittenTag(c, compatible);
    hide Parse, Encoding, ItemOf, Means, Spelled;
    forall g | Means(g, it) && Preferred(g, it, compatible) && g != f ensures |Spelled(g)| > |Spelled(f)| {
      if IsBlob(it) {
        NoShorterBlob(c, compatible, g);
      } else {
        NoShorterNumber(c, compatible, g);
      }
      if |Spelled(g)| == |Spelled(f)| {
        LengthDecides(f, g, it, compatible);
      }
    }
  }

  lemma WrittenTag(c: Call, compatible: bool)
    requires ValidCall(c) && Encoding(c, compatible).Some?
    ensures var e := Encoding(c, compatible).value;
            && |e| > 0 && (ItemOf(c, compatible).PosInt? ==> e[0] < 0xd0)
            && (compatible ==> !(0xc4 <= e[0] <= 0xc9) && !(0xd4 <= e[0] <= 0xd9))
  {
    CompatibleFormats(c);
    hide ToBytes;
  }
}

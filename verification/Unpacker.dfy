/**
 `cw_unpack_next` as it works: a context whose cursor, return code and item record change in place.
 The item's value is a union of one 64-bit number and a (start, length) pair of 32-bit words.
 */
module Unpacker {
  import opened Bytes
  import opened Format

  const ITEM_NIL := 300
  const ITEM_BOOLEAN := 301
  const ITEM_POSITIVE_INTEGER := 302
  const ITEM_NEGATIVE_INTEGER := 303
  const ITEM_FLOAT := 304
  const ITEM_DOUBLE := 305
  const ITEM_STR := 306
  const ITEM_BIN := 307
  const ITEM_ARRAY := 308
  const ITEM_MAP := 309
  const ITEM_EXT := 310
  const NOT_AN_ITEM := 999

  /**
   The item record: its type (the extension's own type for an extension) and the two words of the union.
   `lo` holds `boolean` in its low byte, `real`, `size` or `start`; `hi` holds `length`;
   the 64-bit members take both, low word first.
   */
  datatype Cell = Cell(typ: int, lo: int, hi: int)

  /** Storing a 64-bit number overwrites both words. */
  function PutWide(typ: int, u: int): Cell {
    Cell(typ, u % U32, u / U32)
  }

  /** The record after item `it`; a blob starts at index `start`. */
  function Put(c: Cell, it: Item, start: int): Cell {
    match it
    case Nil => c.(typ := ITEM_NIL)
    case Boolean(b) => c.(typ := ITEM_BOOLEAN, lo := c.lo - c.lo % 256 + if b then 1 else 0)
    case PosInt(u) => PutWide(ITEM_POSITIVE_INTEGER, u)
    case NegInt(i) => PutWide(ITEM_NEGATIVE_INTEGER, i % U64)
    case Float(bits) => c.(typ := ITEM_FLOAT, lo := bits)
    case Double(bits) => PutWide(ITEM_DOUBLE, bits)
    case Str(data) => Cell(ITEM_STR, start, |data|)
    case Bin(data) => Cell(ITEM_BIN, start, |data|)
    case Ext(tag, data) => Cell(tag, start, |data|)
    case Array(n) => c.(typ := ITEM_ARRAY, lo := n)
    case Map(n) => c.(typ := ITEM_MAP, lo := n)
  }

  /** What a client reads from the record by its type, blobs being looked up in `mem`. */
  function View(c: Cell, mem: seq<byte>): Option<Item> {
    var u := c.hi * U32 + c.lo;
    if c.typ == ITEM_NIL then Some(Nil)
    else if c.typ == ITEM_BOOLEAN then Some(Boolean(c.lo % 256 != 0))
    else if c.typ == ITEM_POSITIVE_INTEGER && u >= 0 then Some(PosInt(u))
    else if c.typ == ITEM_NEGATIVE_INTEGER then Some(NegInt(if u >= I63 then u - U64 else u))
    else if c.typ == ITEM_FLOAT && c.lo >= 0 then Some(Float(c.lo))
    else if c.typ == ITEM_DOUBLE && u >= 0 then Some(Double(u))
    else if c.typ == ITEM_ARRAY && c.lo >= 0 then Some(Array(c.lo))
    else if c.typ == ITEM_MAP && c.lo >= 0 then Some(Map(c.lo))
    else if 0 <= c.lo <= c.lo + c.hi <= |mem| then
      var data := mem[c.lo..c.lo + c.hi];
      if c.typ == ITEM_STR then Some(Str(data))
      else if c.typ == ITEM_BIN then Some(Bin(data))
      else if -128 <= c.typ < 128 then Some(Ext(c.typ, data))
      else None
    else None
  }

  /** The length a blob's header announced, once it has been stored in the record. */
  function LengthSeen(t: seq<byte>): Option<nat> {
    if t == [] || !LayoutOf(t[0]).Blob? then None
    else
      var Blob(w, fixed, kind) := LayoutOf(t[0]);
      if |t| < 1 + w then None
      else if w > 0 then Some(Num(t[1..1 + w]))
      else if |t| < 1 + TypeWidth(kind) then None
      else Some(fixed)
  }

  /** A reader: everything up to `pos` is consumed, `rest` is still to be read. */
  datatype Reader = Reader(rest: seq<byte>, pos: nat, code: Code, cell: Cell)

  function BlobLength(it: Item): nat {
    if IsBlob(it) then |it.data| else 0
  }

  /** One call of `cw_unpack_next`. */
  function Next(r: Reader): Reader {
    if r.code != Ok then r
    else match Parse(r.rest)
      case Done(it, used) =>
        Reader(r.rest[used..], r.pos + used, Ok, Put(r.cell, it, r.pos + used - BlobLength(it)))
      case Fail(code, at) =>
        var hi := match LengthSeen(r.rest) case Some(l) => l case None => r.cell.hi;
        Reader(r.rest[at..], r.pos + at, code, Cell(NOT_AN_ITEM, r.cell.lo, hi))
  }

  predicate IsBlob(it: Item) {
    it.Str? || it.Bin? || it.Ext?
  }

  /** What the record holds of each kind: the words of the union, low word first, and two's complement if negative. */
  lemma PutHolds(c: Cell, it: Item, start: int)
    requires InRange(it)
    ensures var r := Put(c, it, start);
            match it
            case PosInt(u) => 0 <= r.lo < U32 && r.lo + U32 * r.hi == u && r.typ == 302
            case NegInt(i) => 0 <= r.lo < U32 && r.lo + U32 * r.hi == i + U64 && r.typ == 303
            case Double(bits) => 0 <= r.lo < U32 && r.lo + U32 * r.hi == bits && r.typ == 305
            case Float(bits) => r == Cell(304, bits, c.hi)
            case Boolean(b) =>
              r.typ == 301 && r.lo % 256 == (if b then 1 else 0) && r.lo / 256 == c.lo / 256 && r.hi == c.hi
            case Nil => r == Cell(300, c.lo, c.hi)
            case Str(data) => r == Cell(306, start, |data|)
            case Bin(data) => r == Cell(307, start, |data|)
            case Ext(tag, data) => r == Cell(tag, start, |data|)
            case Array(n) => r == Cell(308, n, c.hi)
            case Map(n) => r == Cell(309, n, c.hi)
  {
  }

  /** Every item in range can be read back from the record it was put in. */
  lemma ViewPut(c: Cell, it: Item, start: nat, mem: seq<byte>)
    requires InRange(it)
    requires IsBlob(it) ==> start + |it.data| <= |mem| && mem[start..start + |it.data|] == it.data
    ensures View(Put(c, it, start), mem) == Some(it)
  {
  }

  lemma BlobIsLast(t: seq<byte>)
    requires Parse(t).Done? && IsBlob(Parse(t).item)
    ensures var r := Parse(t); |r.item.data| < r.used && t[r.used - |r.item.data|..r.used] == r.item.data
  {
    LayoutSound(t[0]);
    hide LayoutOf;
  }

  /** After a successful call the client reads the parsed item, and a blob lies inside the bytes just consumed. */
  lemma ViewAfterNext(r: Reader, mem: seq<byte>)
    requires r.code == Ok && Parse(r.rest).Done?
    requires r.pos + |r.rest| <= |mem| && mem[r.pos..r.pos + |r.rest|] == r.rest
    ensures View(Next(r).cell, mem) == Some(Parse(r.rest).item)
    ensures IsBlob(Parse(r.rest).item)
            ==> r.pos < Next(r).cell.lo && Next(r).cell.lo + Next(r).cell.hi == Next(r).pos
  {
    hide Parse, View, InRange;
    var Done(it, used) := Parse(r.rest);
    ParsedInRange(r.rest);
    var start := r.pos + used - BlobLength(it);
    if IsBlob(it) {
      BlobIsLast(r.rest);
      SubSlice(mem, r.pos, r.pos + |r.rest|, used - |it.data|, used);
    }
    ViewPut(r.cell, it, start, mem);
  }

  lemma SubSlice<T>(s: seq<T>, a: nat, b: nat, i: nat, j: nat)
    requires a <= b <= |s| && i <= j <= b - a
    ensures s[a..b][i..j] == s[a + i..a + j]
  {
    forall k | 0 <= k < j - i
      ensures s[a..b][i..j][k] == s[a + i..a + j][k]
    {
      assert s[a..b][i + k] == s[a + i + k];
    }
  }

  lemma SuffixSlice<T>(s: seq<T>, a: nat, b: nat, c: nat)
    requires a <= c <= b <= |s|
    ensures s[a..b][c - a..] == s[c..b]
  {
  }

  // What `Next` does, by the layout of the item.

  lemma NextImmediate(r: Reader)
    requires r.code == Ok && r.rest != [] && LayoutOf(r.rest[0]).Immediate?
    ensures Next(r) == Reader(r.rest[1..], r.pos + 1, Ok, Put(r.cell, LayoutOf(r.rest[0]).item, 0))
  {
    LayoutSound(r.rest[0]);
    hide LayoutOf;
  }

  lemma NextNumber(r: Reader, w: nat, kind: NumberKind)
    requires r.code == Ok && r.rest != [] && LayoutOf(r.rest[0]) == Number(w, kind)
    ensures |r.rest| < 1 + w
            ==> Next(r) == Reader(r.rest[1..], r.pos + 1, BufferUnderflow, r.cell.(typ := NOT_AN_ITEM))
    ensures |r.rest| >= 1 + w
            ==> Next(r) == Reader(r.rest[1 + w..], r.pos + 1 + w, Ok,
                                  Put(r.cell, NumberItem(kind, Num(r.rest[1..1 + w]), w), 0))
  {
    LayoutSound(r.rest[0]);
    hide LayoutOf;
  }

  function BlobType(kind: BlobKind, t: byte): int {
    match kind
    case StrBlob => ITEM_STR
    case BinBlob => ITEM_BIN
    case ExtBlob => Signed(t, 1)
  }

  lemma NextBlobNoLength(r: Reader, w: nat, fixed: nat, kind: BlobKind)
    requires r.code == Ok && r.rest != [] && LayoutOf(r.rest[0]) == Blob(w, fixed, kind)
    requires LengthSeen(r.rest).None?
    ensures Next(r) == Reader(r.rest[1..], r.pos + 1, BufferUnderflow, r.cell.(typ := NOT_AN_ITEM))
  {
    hide LayoutOf;
  }

  lemma NextBlob(r: Reader, w: nat, fixed: nat, kind: BlobKind, len: nat)
    requires r.code == Ok && r.rest != [] && LayoutOf(r.rest[0]) == Blob(w, fixed, kind)
    requires LengthSeen(r.rest) == Some(len)
    ensures var h := 1 + w + TypeWidth(kind);
            && (|r.rest| < h
                ==> Next(r) == Reader(r.rest[1 + w..], r.pos + 1 + w, BufferUnderflow,
                                      Cell(NOT_AN_ITEM, r.cell.lo, len)))
            && (h <= |r.rest| < h + len
                ==> Next(r) == Reader(r.rest[h..], r.pos + h, BufferUnderflow, Cell(NOT_AN_ITEM, r.cell.lo, len)))
            && (h + len <= |r.rest|
                ==> Next(r) == Reader(r.rest[h + len..], r.pos + h + len, Ok,
                                      Cell(BlobType(kind, r.rest[h - 1]), r.pos + h, len)))
  {
    hide LayoutOf;
  }

  class UnpackContext {
    const buf: seq<byte>
    var current: nat
    var end: nat
    var code: Code
    var typ: int
    var lo: int
    var hi: int

    ghost predicate Valid()
      reads this
    {
      current <= end <= |buf|
    }

    ghost function State(): (r: Reader)
      requires Valid()
      reads this
    {
      Reader(buf[current..end], current, code, Cell(typ, lo, hi))
    }

    constructor (data: seq<byte>, length: nat)
      requires length <= |data|
      ensures Valid() && buf == data && current == 0 && end == length && code == Ok
    {
      buf := data;
      current, end, code := 0, length, Ok;
      typ, lo, hi := *, *, *;
    }

    /** Claims `more` bytes, or records the error and marks the item invalid. */
    method AssertSpace(more: nat, shortage: Code) returns (ok: bool, p: nat)
      requires Valid()
      modifies this
      ensures Valid() && end == old(end) && lo == old(lo) && hi == old(hi) && p == old(current)
      ensures ok == (old(current) + more <= end)
      ensures ok ==> current == old(current) + more && code == old(code) && typ == old(typ)
      ensures !ok ==> current == old(current) && code == shortage && typ == NOT_AN_ITEM
    {
      p := current;
      ok := p + more <= end;
      if ok {
        current := p + more;
      } else {
        typ, code := NOT_AN_ITEM, shortage;
      }
    }

    method Load16(p: nat) returns (n: nat)
      requires p + 2 <= |buf|
      ensures n == Num(buf[p..p + 2])
    {
      var b0: int, b1: int := buf[p], buf[p + 1];
      n := b0 * 0x100 + b1;
      NumSnoc(buf[p..p + 1], b1);
      assert buf[p..p + 1] + [b1] == buf[p..p + 2];
    }

    method Load32(p: nat) returns (n: nat)
      requires p + 4 <= |buf|
      ensures n == Num(buf[p..p + 4])
    {
      var a := Load16(p);
      var b2: int, b3: int := buf[p + 2], buf[p + 3];
      n := a * 0x1_0000 + b2 * 0x100 + b3;
      NumSnoc(buf[p..p + 2], b2);
      NumSnoc(buf[p..p + 3], b3);
      assert buf[p..p + 2] + [b2] == buf[p..p + 3];
      assert buf[p..p + 3] + [b3] == buf[p..p + 4];
    }

    method Load64(p: nat) returns (n: nat)
      requires p + 8 <= |buf|
      ensures n == Num(buf[p..p + 8])
    {
      var a := Load32(p);
      var b := Load32(p + 4);
      n := a * 0x1_0000_0000 + b;
      NumAppend(buf[p..p + 4], buf[p + 4..p + 8]);
      assert buf[p..p + 4] + buf[p + 4..p + 8] == buf[p..p + 8];
    }

    /** Sets the type, claims `w` bytes and loads the number in them. */
    method GetItem(t: int, w: nat) returns (ok: bool, n: nat)
      requires Valid() && (w == 1 || w == 2 || w == 4 || w == 8)
      modifies this
      ensures Valid() && end == old(end) && lo == old(lo) && hi == old(hi)
      ensures ok == (old(current) + w <= end)
      ensures ok ==> current == old(current) + w && code == old(code) && typ == t
                     && n == Num(buf[old(current)..current])
      ensures !ok ==> current == old(current) && code == BufferUnderflow && typ == NOT_AN_ITEM
    {
      typ, n := t, 0;
      var p;
      ok, p := AssertSpace(w, BufferUnderflow);
      if ok {
        if w == 1 {
          n := buf[p];
          assert buf[p..p + 1] == [buf[p]];
        } else if w == 2 {
          n := Load16(p);
        } else if w == 4 {
          n := Load32(p);
        } else {
          n := Load64(p);
        }
      }
    }

    /** Claims the `hi` bytes of a blob and points the item at them. */
    method GetBlob()
      requires Valid() && hi >= 0
      modifies this
      ensures Valid() && end == old(end) && hi == old(hi)
      ensures old(current) + hi <= end
              ==> current == old(current) + hi && lo == old(current) && code == old(code) && typ == old(typ)
      ensures old(current) + hi > end
              ==> current == old(current) && lo == old(lo) && code == BufferUnderflow && typ == NOT_AN_ITEM
    {
      var ok, p := AssertSpace(hi, BufferUnderflow);
      if ok {
        lo := p;
      }
    }

    /** Claims the type byte of an extension, then its data; `hi` is set to `len` on the way. */
    method GetExt(len: nat)
      requires Valid()
      modifies this
      ensures Valid() && end == old(end)
      ensures old(current) >= end
              ==> current == old(current) && lo == old(lo) && hi == old(hi)
                  && code == BufferUnderflow && typ == NOT_AN_ITEM
      ensures old(current) < end ==> hi == len
      ensures old(current) < end < old(current) + 1 + len
              ==> current == old(current) + 1 && lo == old(lo) && code == BufferUnderflow && typ == NOT_AN_ITEM
      ensures old(current) + 1 + len <= end
              ==> && current == old(current) + 1 + len && lo == old(current) + 1 && code == old(code)
                  && typ == Signed(buf[old(current)], 1)
    {
      var ok, p := AssertSpace(1, BufferUnderflow);
      if ok {
        Powers();
        var b: int := buf[p];
        typ := if b >= 0x80 then b - 0x100 else b;
        hi := len;
        GetBlob();
      }
    }

    /** The context is one byte into the item of reader `r`, whose first byte is `c`. */
    ghost predicate Tagged(r: Reader, c: byte)
      reads this
    {
      && Valid()
      && r.code == Ok == code
      && r.pos + 1 == current && r.rest == buf[r.pos..end] && r.rest[0] == c
      && r.cell == Cell(typ, lo, hi)
    }

    method UnpackShort(c: byte, ghost r: Reader)
      requires Tagged(r, c) && (c < 0xa0 || c >= 0xe0)
      modifies this
      ensures Valid() && end == old(end) && State() == Next(r)
    {
      hide Next, Parse;
      if c < 0x80 {
        NextImmediate(r);
        typ, lo, hi := ITEM_POSITIVE_INTEGER, c, 0;
      } else if c < 0x90 {
        NextImmediate(r);
        typ, lo := ITEM_MAP, c % 16;
      } else if c < 0xa0 {
        NextImmediate(r);
        typ, lo := ITEM_ARRAY, c % 16;
      } else {
        NextImmediate(r);
        typ, lo, hi := ITEM_NEGATIVE_INTEGER, (c - 0x100) % U64 % U32, (c - 0x100) % U64 / U32;
      }
      SuffixSlice(buf, r.pos, end, current);
    }

    /** A string whose length is in the tag. */
    method UnpackFixStr(c: byte, ghost r: Reader)
      requires Tagged(r, c) && 0xa0 <= c < 0xc0
      modifies this
      ensures Valid() && end == old(end) && State() == Next(r)
    {
      hide Next, Parse;
      NextBlob(r, 0, c - 0xa0, StrBlob, c - 0xa0);
      hide LayoutOf;
      typ, hi := ITEM_STR, c % 32;
      GetBlob();
      SuffixSlice(buf, r.pos, end, current);
    }

    /** A string or binary whose length takes `w` bytes. */
    method UnpackBlob(c: byte, w: nat, kind: BlobKind, ghost r: Reader)
      requires Tagged(r, c) && LayoutOf(c) == Blob(w, 0, kind) && w > 0 && kind != ExtBlob
      modifies this
      ensures Valid() && end == old(end) && State() == Next(r)
    {
      LayoutSound(c);
      hide Next, Parse, LayoutOf;
      var ok, n := GetItem(if kind == StrBlob then ITEM_STR else ITEM_BIN, w);
      if ok {
        SubSlice(buf, r.pos, end, 1, 1 + w);
        NextBlob(r, w, 0, kind, n);
        hi := n;
        GetBlob();
      } else {
        NextBlobNoLength(r, w, 0, kind);
      }
      SuffixSlice(buf, r.pos, end, current);
    }

    /** An extension whose length takes `w` bytes. */
    method UnpackExt(c: byte, w: nat, ghost r: Reader)
      requires Tagged(r, c) && LayoutOf(c) == Blob(w, 0, ExtBlob) && w > 0
      modifies this
      ensures Valid() && end == old(end) && State() == Next(r)
    {
      LayoutSound(c);
      hide Next, Parse, LayoutOf;
      var ok, n := GetItem(ITEM_EXT, w);
      if ok {
        SubSlice(buf, r.pos, end, 1, 1 + w);
        NextBlob(r, w, 0, ExtBlob, n);
        hi := n;
        GetExt(n);
      } else {
        NextBlobNoLength(r, w, 0, ExtBlob);
      }
      SuffixSlice(buf, r.pos, end, current);
    }

    /** An extension of one of the five fixed lengths. */
    method UnpackFixExt(c: byte, len: nat, ghost r: Reader)
      requires Tagged(r, c) && LayoutOf(c) == Blob(0, len, ExtBlob)
      modifies this
      ensures Valid() && end == old(end) && State() == Next(r)
    {
      hide Next, Parse, LayoutOf;
      if current < end {
        NextBlob(r, 0, len, ExtBlob, len);
      } else {
        NextBlobNoLength(r, 0, len, ExtBlob);
      }
      GetExt(len);
      SuffixSlice(buf, r.pos, end, current);
    }

    /** An unsigned integer or a double: a 64-bit member of the union. */
    method UnpackWide(c: byte, w: nat, kind: NumberKind, ghost r: Reader)
      requires Tagged(r, c) && LayoutOf(c) == Number(w, kind) && (kind == Unsigned || kind == DoubleBits)
      modifies this
      ensures Valid() && end == old(end) && State() == Next(r)
    {
      LayoutSound(c);
      NextNumber(r, w, kind);
      hide Next, Parse, LayoutOf;
      var ok, n := GetItem(if kind == Unsigned then ITEM_POSITIVE_INTEGER else ITEM_DOUBLE, w);
      if ok {
        SubSlice(buf, r.pos, end, 1, 1 + w);
        lo, hi := n % U32, n / U32;
      }
      SuffixSlice(buf, r.pos, end, current);
    }

    /** A signed integer, sign-extended to 64 bits; the type turns positive with the value. */
    method UnpackSigned(c: byte, w: nat, ghost r: Reader)
      requires Tagged(r, c) && LayoutOf(c) == Number(w, TwosComplement)
      modifies this
      ensures Valid() && end == old(end) && State() == Next(r)
    {
      LayoutSound(c);
      NextSigned(r, w);
      hide Next, Parse, LayoutOf, Signed;
      var ok, n := GetItem(ITEM_NEGATIVE_INTEGER, w);
      if ok {
        SubSlice(buf, r.pos, end, 1, 1 + w);
        var i := Signed(n, w);
        var u := i % U64;
        lo, hi := u % U32, u / U32;
        if i >= 0 {
          typ := ITEM_POSITIVE_INTEGER;
        }
      }
      SuffixSlice(buf, r.pos, end, current);
    }

    /** A float or a container size: a 32-bit member of the union, which leaves the upper word alone. */
    method UnpackNarrow(c: byte, w: nat, kind: NumberKind, ghost r: Reader)
      requires Tagged(r, c) && LayoutOf(c) == Number(w, kind)
      requires kind == FloatBits || kind == ArraySize || kind == MapSize
      modifies this
      ensures Valid() && end == old(end) && State() == Next(r)
    {
      LayoutSound(c);
      NextNumber(r, w, kind);
      hide Next, Parse, LayoutOf;
      var t := if kind == FloatBits then ITEM_FLOAT else if kind == ArraySize then ITEM_ARRAY else ITEM_MAP;
      var ok, n := GetItem(t, w);
      if ok {
        SubSlice(buf, r.pos, end, 1, 1 + w);
        lo := n;
      }
      SuffixSlice(buf, r.pos, end, current);
    }

    method UnpackC(c: byte, ghost r: Reader)
      requires Tagged(r, c) && 0xc0 <= c < 0xd0
      modifies this
      ensures Valid() && end == old(end) && State() == Next(r)
    {
      if c == 0xc0 || c == 0xc2 || c == 0xc3 {
        NextImmediate(r);
      }
      hide Parse;
      SuffixSlice(buf, r.pos, end, current);
      match c {
        case 0xc0 => typ := ITEM_NIL;
        case 0xc1 => NextIllegal(r); typ, code := NOT_AN_ITEM, MalformedInput;
        case 0xc2 => typ, lo := ITEM_BOOLEAN, lo - lo % 256;
        case 0xc3 => typ, lo := ITEM_BOOLEAN, lo - lo % 256 + 1;
        case 0xc4 => UnpackBlob(c, 1, BinBlob, r);
        case 0xc5 => UnpackBlob(c, 2, BinBlob, r);
        case 0xc6 => UnpackBlob(c, 4, BinBlob, r);
        case 0xc7 => UnpackExt(c, 1, r);
        case 0xc8 => UnpackExt(c, 2, r);
        case 0xc9 => UnpackExt(c, 4, r);
        case 0xca => UnpackNarrow(c, 4, FloatBits, r);
        case 0xcb => UnpackWide(c, 8, DoubleBits, r);
        case 0xcc => UnpackWide(c, 1, Unsigned, r);
        case 0xcd => UnpackWide(c, 2, Unsigned, r);
        case 0xce => UnpackWide(c, 4, Unsigned, r);
        case _ => UnpackWide(c, 8, Unsigned, r);
      }
    }

    method UnpackD(c: byte, ghost r: Reader)
      requires Tagged(r, c) && 0xd0 <= c < 0xe0
      modifies this
      ensures Valid() && end == old(end) && State() == Next(r)
    {
      hide Next, Parse;
      match c {
        case 0xd0 => UnpackSigned(c, 1, r);
        case 0xd1 => UnpackSigned(c, 2, r);
        case 0xd2 => UnpackSigned(c, 4, r);
        case 0xd3 => UnpackSigned(c, 8, r);
        case 0xd4 => UnpackFixExt(c, 1, r);
        case 0xd5 => UnpackFixExt(c, 2, r);
        case 0xd6 => UnpackFixExt(c, 4, r);
        case 0xd7 => UnpackFixExt(c, 8, r);
        case 0xd8 => UnpackFixExt(c, 16, r);
        case 0xd9 => UnpackBlob(c, 1, StrBlob, r);
        case 0xda => UnpackBlob(c, 2, StrBlob, r);
        case 0xdb => UnpackBlob(c, 4, StrBlob, r);
        case 0xdc => UnpackNarrow(c, 2, ArraySize, r);
        case 0xdd => UnpackNarrow(c, 4, ArraySize, r);
        case 0xde => UnpackNarrow(c, 2, MapSize, r);
        case _ => UnpackNarrow(c, 4, MapSize, r);
      }
    }

    /** Decodes one item; does nothing once an error has been recorded. */
    method UnpackNext()
      requires Valid()
      modifies this
      ensures Valid() && end == old(end) && State() == Next(old(State()))
    {
      ghost var r := State();
      if code != Ok {
        return;
      }
      hide LayoutOf;
      var ok, p := AssertSpace(1, EndOfInput);
      if !ok {
        assert r.rest == [] == buf[current..end];
        return;
      }
      var c := buf[p];
      hide Next, Parse;
      if c < 0xa0 || c >= 0xe0 {
        UnpackShort(c, r);
      } else if c < 0xc0 {
        UnpackFixStr(c, r);
      } else if c < 0xd0 {
        UnpackC(c, r);
      } else {
        UnpackD(c, r);
      }
    }
  }

  lemma NextIllegal(r: Reader)
    requires r.code == Ok && r.rest != [] && r.rest[0] == 0xc1
    ensures Next(r) == Reader(r.rest[1..], r.pos + 1, MalformedInput, r.cell.(typ := NOT_AN_ITEM))
  {
  }

  lemma PutSigned(c: Cell, i: int)
    requires -I63 <= i < I63
    ensures Put(c, IntItem(i), 0)
         == PutWide(if i >= 0 then ITEM_POSITIVE_INTEGER else ITEM_NEGATIVE_INTEGER, i % U64)
  {
  }

  lemma NextSigned(r: Reader, w: nat)
    requires r.code == Ok && r.rest != [] && LayoutOf(r.rest[0]) == Number(w, TwosComplement)
    ensures |r.rest| < 1 + w
            ==> Next(r) == Reader(r.rest[1..], r.pos + 1, BufferUnderflow, r.cell.(typ := NOT_AN_ITEM))
    ensures |r.rest| >= 1 + w
            ==> var i := Signed(Num(r.rest[1..1 + w]), w);
                Next(r) == Reader(r.rest[1 + w..], r.pos + 1 + w, Ok,
                                  PutWide(if i >= 0 then ITEM_POSITIVE_INTEGER else ITEM_NEGATIVE_INTEGER, i % U64))
  {
    NextNumber(r, w, TwosComplement);
    LayoutSound(r.rest[0]);
    hide Next, Parse, LayoutOf, Put, Signed;
    if |r.rest| >= 1 + w {
      SignedRange(r.rest[1..1 + w]);
      PutSigned(r.cell, Signed(Num(r.rest[1..1 + w]), w));
    }
  }

  lemma SignedRange(bs: seq<byte>)
    requires |bs| <= 8
    ensures -I63 <= Signed(Num(bs), |bs|) < I63 || |bs| == 0
  {
    NumBound(bs);
    PowMonotone(|bs|, 8);
    Powers();
  }

  lemma PowMonotone(a: nat, b: nat)
    requires a <= b
    ensures Pow256(a) <= Pow256(b)
  {
  }

  lemma NumAppend(a: seq<byte>, b: seq<byte>)
    requires |b| == 4
    ensures Num(a + b) == Num(a) * 0x1_0000_0000 + Num(b)
  {
    assert b == b[..1] + [b[1]] + [b[2]] + [b[3]];
    NumSnoc([], b[0]);
    NumSnoc(b[..1], b[1]);
    NumSnoc(b[..1] + [b[1]], b[2]);
    NumSnoc(b[..1] + [b[1]] + [b[2]], b[3]);
    assert [] + [b[0]] == b[..1];
    NumSnoc(a, b[0]);
    NumSnoc(a + [b[0]], b[1]);
    NumSnoc(a + [b[0]] + [b[1]], b[2]);
    NumSnoc(a + [b[0]] + [b[1]] + [b[2]], b[3]);
    assert a + b == a + [b[0]] + [b[1]] + [b[2]] + [b[3]];
  }

  lemma NumSnoc(bs: seq<byte>, b: byte)
    ensures Num(bs + [b]) == Num(bs) * 256 + b
  {
  }
}

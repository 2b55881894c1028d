/**
 The shift-and-mask stores and loads chosen on a little-endian machine, against the byte-at-a-time forms.
 A register is a bit vector; memory is a sequence of `bv8`.
 */
module Words {
  import opened Bytes

  type u8 = bv8

  // Byte swaps, one for each width, written with the masks of the macros.

  function Swap16(x: bv16): bv16 {
    ((x >> 8) & 0x0ff) | (x << 8)
  }

  function Swap32(x: bv32): bv32 {
    (x >> 24) | ((x & 0x00ff_0000) >> 8) | ((x & 0x0000_ff00) << 8) | (x << 24)
  }

  function Swap64(x: bv64): bv64 {
    (((x >> 40) | (x << 24)) & 0x0000_ff00_0000_ff00)
    | (((x >> 24) | (x << 40)) & 0x00ff_0000_00ff_0000)
    | ((x & 0x0000_00ff_0000_0000) >> 8)
    | ((x & 0x0000_0000_ff00_0000) << 8)
    | (x >> 56) | (x << 56)
  }

  // A whole-word access on a little-endian machine: the least significant byte comes first.

  function PutWord16(x: bv16): seq<u8> {
    [(x & 0xff) as u8, (x >> 8) as u8]
  }

  function PutWord32(x: bv32): seq<u8> {
    [(x & 0xff) as u8, ((x >> 8) & 0xff) as u8, ((x >> 16) & 0xff) as u8, (x >> 24) as u8]
  }

  function PutWord64(x: bv64): seq<u8> {
    [(x & 0xff) as u8, ((x >> 8) & 0xff) as u8, ((x >> 16) & 0xff) as u8, ((x >> 24) & 0xff) as u8,
     ((x >> 32) & 0xff) as u8, ((x >> 40) & 0xff) as u8, ((x >> 48) & 0xff) as u8, (x >> 56) as u8]
  }

  function GetWord16(m: seq<u8>): bv16
    requires |m| == 2
  {
    m[0] as bv16 | (m[1] as bv16 << 8)
  }

  function GetWord32(m: seq<u8>): bv32
    requires |m| == 4
  {
    m[0] as bv32 | (m[1] as bv32 << 8) | (m[2] as bv32 << 16) | (m[3] as bv32 << 24)
  }

  function GetWord64(m: seq<u8>): bv64
    requires |m| == 8
  {
    m[0] as bv64 | (m[1] as bv64 << 8) | (m[2] as bv64 << 16) | (m[3] as bv64 << 24)
    | (m[4] as bv64 << 32) | (m[5] as bv64 << 40) | (m[6] as bv64 << 48) | (m[7] as bv64 << 56)
  }

  // The macros on a little-endian machine.

  function Store16(x: bv16): seq<u8> { PutWord16(Swap16(x)) }
  function Store32(x: bv32): seq<u8> { PutWord32(Swap32(x)) }
  function Store64(x: bv64): seq<u8> { PutWord64(Swap64(x)) }

  function Load16(m: seq<u8>): bv16 requires |m| == 2 {
    var w := GetWord16(m); (w << 8) | (w >> 8)
  }

  function Load32(m: seq<u8>): bv32 requires |m| == 4 {
    var w := GetWord32(m);
    (w << 24) | ((w & 0xff00) << 8) | ((w & 0xff_0000) >> 8) | (w >> 24)
  }

  function Load64(m: seq<u8>): bv64 requires |m| == 8 { Swap64(GetWord64(m)) }

  // The macros for an undetermined byte order.

  function StoreBytes16(x: bv16): seq<u8> { [(x >> 8) as u8, (x & 0xff) as u8] }

  function StoreBytes32(x: bv32): seq<u8> {
    [(x >> 24) as u8, ((x >> 16) & 0xff) as u8, ((x >> 8) & 0xff) as u8, (x & 0xff) as u8]
  }

  function StoreBytes64(x: bv64): seq<u8> {
    [(x >> 56) as u8, ((x >> 48) & 0xff) as u8, ((x >> 40) & 0xff) as u8, ((x >> 32) & 0xff) as u8,
     ((x >> 24) & 0xff) as u8, ((x >> 16) & 0xff) as u8, ((x >> 8) & 0xff) as u8, (x & 0xff) as u8]
  }

  function LoadBytes16(m: seq<u8>): bv16 requires |m| == 2 {
    (m[0] as bv16 << 8) | m[1] as bv16
  }

  function LoadBytes32(m: seq<u8>): bv32 requires |m| == 4 {
    (m[0] as bv32 << 24) | (m[1] as bv32 << 16) | (m[2] as bv32 << 8) | m[3] as bv32
  }

  function LoadBytes64(m: seq<u8>): bv64 requires |m| == 8 {
    (m[0] as bv64 << 56) | (m[1] as bv64 << 48) | (m[2] as bv64 << 40) | (m[3] as bv64 << 32)
    | (m[4] as bv64 << 24) | (m[5] as bv64 << 16) | (m[6] as bv64 << 8) | m[7] as bv64
  }

  // Every pair of forms agrees, and the load undoes the store in both directions.

  lemma Agree16(x: bv16, m: seq<u8>)
    requires |m| == 2
    ensures Store16(x) == StoreBytes16(x) && Load16(m) == LoadBytes16(m)
    ensures Load16(Store16(x)) == x && Store16(Load16(m)) == m
  {
  }

  lemma Swap32Twice(x: bv32)
    ensures Swap32(Swap32(x)) == x
  {
  }

  lemma WordOfBytes32(m: seq<u8>)
    requires |m| == 4
    ensures PutWord32(GetWord32(m)) == m && Load32(m) == LoadBytes32(m) == Swap32(GetWord32(m))
  {
  }

  lemma BytesOfWord32(x: bv32)
    ensures GetWord32(PutWord32(x)) == x && PutWord32(Swap32(x)) == StoreBytes32(x)
  {
  }

  lemma Agree32(x: bv32, m: seq<u8>)
    requires |m| == 4
    ensures Store32(x) == StoreBytes32(x) && Load32(m) == LoadBytes32(m)
    ensures Load32(Store32(x)) == x && Store32(Load32(m)) == m
  {
    BytesOfWord32(x);
    BytesOfWord32(Swap32(x));
    WordOfBytes32(m);
    WordOfBytes32(Store32(x));
    Swap32Twice(x);
    Swap32Twice(GetWord32(m));
  }

  lemma Swap64Twice(x: bv64)
    ensures Swap64(Swap64(x)) == x
  {
  }

  lemma WordOfBytes64(m: seq<u8>)
    requires |m| == 8
    ensures PutWord64(GetWord64(m)) == m && Swap64(GetWord64(m)) == LoadBytes64(m)
  {
  }

  lemma BytesOfWord64(x: bv64)
    ensures GetWord64(PutWord64(x)) == x
  {
  }

  lemma SwappedBytes64(x: bv64)
    ensures PutWord64(Swap64(x)) == StoreBytes64(x)
  {
  }

  lemma Agree64(x: bv64, m: seq<u8>)
    requires |m| == 8
    ensures Store64(x) == StoreBytes64(x) && Load64(m) == LoadBytes64(m)
    ensures Load64(Store64(x)) == x && Store64(Load64(m)) == m
  {
    SwappedBytes64(x);
    BytesOfWord64(Swap64(x));
    WordOfBytes64(m);
    Swap64Twice(x);
    Swap64Twice(GetWord64(m));
  }

  // The link to numbers: a register holds the number that its base-256 digits spell.

  function Octets(m: seq<u8>): (r: seq<byte>)
    ensures |r| == |m|
  {
    seq(|m|, i requires 0 <= i < |m| => m[i] as int)
  }

  function Number16(x: bv16): nat { Num(Octets(StoreBytes16(x))) }
  function Number32(x: bv32): nat { Num(Octets(StoreBytes32(x))) }
  function Number64(x: bv64): nat { Num(Octets(StoreBytes64(x))) }

  /** A swapped 16-bit store writes the register's number big-endian; a load reads the number in memory. */
  lemma BigEndian16(x: bv16, m: seq<u8>)
    requires |m| == 2
    ensures Octets(Store16(x)) == ToBytes(Number16(x), 2)
    ensures Number16(Load16(m)) == Num(Octets(m))
  {
    Agree16(x, m);
    Agree16(Load16(m), m);
    ToBytesNum(Octets(StoreBytes16(x)));
  }

  /** The same at 32 bits. */
  lemma BigEndian32(x: bv32, m: seq<u8>)
    requires |m| == 4
    ensures Octets(Store32(x)) == ToBytes(Number32(x), 4)
    ensures Number32(Load32(m)) == Num(Octets(m))
  {
    Agree32(x, m);
    Agree32(Load32(m), m);
    ToBytesNum(Octets(StoreBytes32(x)));
  }

  /** The same at 64 bits. */
  lemma BigEndian64(x: bv64, m: seq<u8>)
    requires |m| == 8
    ensures Octets(Store64(x)) == ToBytes(Number64(x), 8)
    ensures Number64(Load64(m)) == Num(Octets(m))
  {
    Agree64(x, m);
    Agree64(Load64(m), m);
    ToBytesNum(Octets(StoreBytes64(x)));
  }

  // The digits spell the ordinary number: it is 0 for zero and grows by one when one is added to the register.

  function Number8(x: u8): nat { x as int }

  lemma Successor8(x: u8)
    ensures Number8(0) == 0 && Number8(0xff) == 0xff
    ensures x != 0xff ==> Number8(x + 1) == Number8(x) + 1
  {
  }

  lemma Negated8(x: bv8)
    ensures Number8(0 - x) == if x == 0 then 0 else 0x100 - Number8(x)
    ensures Number8(0) == 0 && Number8(1) == 1 && Number8(x) < 0x100
  {
  }

  lemma JoinedOctets(a: seq<u8>, b: seq<u8>)
    ensures Octets(a + b) == Octets(a) + Octets(b)
  {
  }

  lemma JoinedNumber(a: seq<u8>, b: seq<u8>)
    ensures Num(Octets(a + b)) == Num(Octets(a)) * Pow256(|b|) + Num(Octets(b))
  {
    hide Num, Pow256;
    JoinedOctets(a, b);
    hide Octets;
    NumJoin(Octets(a), Octets(b));
  }

  lemma Carry16(x: bv16)
    requires x != 0xffff
    ensures var hi, lo := (x >> 8) as u8, (x & 0xff) as u8;
            var hi', lo' := ((x + 1) >> 8) as u8, ((x + 1) & 0xff) as u8;
            if lo == 0xff then lo' == 0 && hi != 0xff && hi' == hi + 1 else lo' == lo + 1 && hi' == hi
  {
  }

  lemma Halves16(x: bv16)
    ensures Number16(x) == Number8((x >> 8) as u8) * 0x100 + Number8((x & 0xff) as u8)
  {
    var bs := Octets(StoreBytes16(x));
    assert bs[..1][..0] == [];
    assert Num(bs[..1]) == bs[0];
    hide Num;
  }

  /** Zero is 0, and adding one to a 16-bit register, short of wrapping, adds one to its number. */
  lemma Successor16(x: bv16)
    ensures Number16(0) == 0 && Number16(0xffff) == 0xffff
    ensures x != 0xffff ==> Number16(x + 1) == Number16(x) + 1
  {
    hide Number16, Number8;
    Halves16(0);
    Halves16(0xffff);
    Halves16(x);
    Halves16(x + 1);
    Successor8((x >> 8) as u8);
    Successor8((x & 0xff) as u8);
    if x != 0xffff {
      Carry16(x);
    }
  }

  lemma Carry32(x: bv32)
    requires x != 0xffff_ffff
    ensures var hi, lo := (x >> 16) as bv16, (x & 0xffff) as bv16;
            var hi', lo' := ((x + 1) >> 16) as bv16, ((x + 1) & 0xffff) as bv16;
            if lo == 0xffff then lo' == 0 && hi != 0xffff && hi' == hi + 1 else lo' == lo + 1 && hi' == hi
  {
  }

  lemma Halves32(x: bv32)
    ensures Number32(x) == Number16((x >> 16) as bv16) * 0x1_0000 + Number16((x & 0xffff) as bv16)
  {
    var hi, lo := (x >> 16) as bv16, (x & 0xffff) as bv16;
    assert StoreBytes32(x) == StoreBytes16(hi) + StoreBytes16(lo);
    JoinedNumber(StoreBytes16(hi), StoreBytes16(lo));
    Powers();
  }

  /** The same at 32 bits. */
  lemma Successor32(x: bv32)
    ensures Number32(0) == 0 && Number32(0xffff_ffff) == 0xffff_ffff
    ensures x != 0xffff_ffff ==> Number32(x + 1) == Number32(x) + 1
  {
    hide Number32, Number16;
    Halves32(0);
    Halves32(0xffff_ffff);
    Halves32(x);
    Halves32(x + 1);
    Successor16((x >> 16) as bv16);
    Successor16((x & 0xffff) as bv16);
    if x != 0xffff_ffff {
      Carry32(x);
    }
  }

  lemma Digits32(x: bv32)
    ensures Number32(x) == Number16((x >> 16) as bv16) * 0x1_0000
                           + Number8(((x >> 8) & 0xff) as u8) * 0x100 + Number8((x & 0xff) as u8)
  {
    hide Number32, Number16, Number8;
    var lo := (x & 0xffff) as bv16;
    Halves32(x);
    Halves16(lo);
    assert (lo >> 8) as u8 == ((x >> 8) & 0xff) as u8 && (lo & 0xff) as u8 == (x & 0xff) as u8;
  }

  lemma Carry64(x: bv64)
    requires x != 0xffff_ffff_ffff_ffff
    ensures var hi, lo := (x >> 32) as bv32, (x & 0xffff_ffff) as bv32;
            var hi', lo' := ((x + 1) >> 32) as bv32, ((x + 1) & 0xffff_ffff) as bv32;
            if lo == 0xffff_ffff then lo' == 0 && hi != 0xffff_ffff && hi' == hi + 1 else lo' == lo + 1 && hi' == hi
  {
  }

  lemma Halves64(x: bv64)
    ensures Number64(x) == Number32((x >> 32) as bv32) * 0x1_0000_0000 + Number32((x & 0xffff_ffff) as bv32)
  {
    var hi, lo := (x >> 32) as bv32, (x & 0xffff_ffff) as bv32;
    assert StoreBytes64(x) == StoreBytes32(hi) + StoreBytes32(lo);
    JoinedNumber(StoreBytes32(hi), StoreBytes32(lo));
    Powers();
  }

  /** The same at 64 bits. */
  lemma Successor64(x: bv64)
    ensures Number64(0) == 0 && Number64(0xffff_ffff_ffff_ffff) == 0xffff_ffff_ffff_ffff
    ensures x != 0xffff_ffff_ffff_ffff ==> Number64(x + 1) == Number64(x) + 1
  {
    hide Number64, Number32;
    Halves64(0);
    Halves64(0xffff_ffff_ffff_ffff);
    Halves64(x);
    Halves64(x + 1);
    Successor32((x >> 32) as bv32);
    Successor32((x & 0xffff_ffff) as bv32);
    if x != 0xffff_ffff_ffff_ffff {
      Carry64(x);
    }
  }
}

/** Packing chooses, among all byte strings that read as an item, a shortest one. */
module Normal {
  import opened Bytes
  import opened Format

  /** The call that writes an item. */
  function Repack(it: Item): Call {
    match it
    case Nil => PackNil
    case Boolean(b) => PackBoolean(b)
    case PosInt(u) => PackUnsigned(u)
    case NegInt(i) => PackSigned(i)
    case Float(bits) => PackFloat(bits)
    case Double(bits) => PackDouble(bits)
    case Str(data) => PackStr(data)
    case Bin(data) => PackBin(data)
    case Ext(tag, data) => PackExt(tag, data)
    case Array(n) => PackArraySize(n)
    case Map(n) => PackMapSize(n)
  }

  /** Blobs so long that adding a header wraps in 32 bits cannot be written. */
  predicate Writable(it: Item) {
    (it.Str? || it.Bin? || it.Ext?) ==> |it.data| < U32 - 6
  }

  function Shortest(it: Item): seq<byte>
    requires ValidCall(Repack(it))
  {
    Encoding(Repack(it), false).value
  }

  lemma NumberNormal(t: seq<byte>)
    requires t != [] && LayoutOf(t[0]).Number? && Parse(t).Done?
    ensures ValidCall(Repack(Parse(t).item)) && |Shortest(Parse(t).item)| <= Parse(t).used
  {
    LayoutSound(t[0]);
    hide LayoutOf;
    Powers();
    var w := LayoutOf(t[0]).width;
    NumBound(t[1..1 + w]);
  }

  lemma BlobNormal(t: seq<byte>)
    requires t != [] && LayoutOf(t[0]).Blob? && Parse(t).Done? && Writable(Parse(t).item)
    ensures ValidCall(Repack(Parse(t).item)) && |Shortest(Parse(t).item)| <= Parse(t).used
  {
    LayoutSound(t[0]);
    hide LayoutOf;
    Powers();
    var w := LayoutOf(t[0]).lengthWidth;
    NumBound(t[1..1 + w]);
  }

  /**
   Decoding and packing again keeps the item and never makes it longer. As this holds for every `t`,
   the packed form is the shortest byte string that reads as the item.
   */
  lemma RepackNormalises(t: seq<byte>, rest: seq<byte>)
    requires Parse(t).Done? && Writable(Parse(t).item)
    ensures var it := Parse(t).item;
            && ValidCall(Repack(it))
            && Parse(Shortest(it) + rest) == Done(it, |Shortest(it)|)
            && |Shortest(it)| <= Parse(t).used
  {
    LayoutSound(t[0]);
    hide LayoutOf;
    var it := Parse(t).item;
    match LayoutOf(t[0]) {
      case Immediate(_) =>
      case Number(_, _) => NumberNormal(t);
      case Blob(_, _, _) => BlobNormal(t);
    }
    RepackKeeps(t);
    ReadBack(Repack(it), false, rest);
  }

  lemma RepackKeeps(t: seq<byte>)
    requires Parse(t).Done?
    ensures ItemOf(Repack(Parse(t).item), false) == Parse(t).item
  {
    LayoutSound(t[0]);
    hide LayoutOf;
  }

  /** The two integer routines write the same bytes wherever both accept the number. */
  lemma SignedAgreesWithUnsigned(i: nat)
    requires i < I63
    ensures Encoding(PackSigned(i), false) == Encoding(PackUnsigned(i), false)
  {
  }

  /**
   In compatibility mode no format is used that the older specification lacks: the tags 0xc4 to 0xc9 and
   0xd4 to 0xd9 of binaries, extensions and 8-bit strings never start an item. Extensions alone are illegal then.
   */
  lemma CompatibleFormats(c: Call)
    requires ValidCall(c)
    ensures Encoding(c, false).Some? && (Encoding(c, true).Some? <==> !c.PackExt?)
    ensures Encoding(c, true).Some? ==>
              var e := Encoding(c, true).value;
              |e| > 0 && !(0xc4 <= e[0] <= 0xc9) && !(0xd4 <= e[0] <= 0xd9)
  {
    hide ToBytes;
  }
}

/** What repeated calls of `cw_unpack_next` make of an arbitrary byte string. */
module Stream {
  import opened Bytes
  import opened Format
  import opened Unpacker

  /** The code on which repeated unpacking of `t` ends. */
  function Scan(t: seq<byte>): Code
    decreases |t|
  {
    match Parse(t)
    case Fail(code, _) => code
    case Done(_, used) => Scan(t[used..])
  }

  /** Exactly one item. */
  predicate Complete(p: seq<byte>) {
    Parse(p).Done? && Parse(p).used == |p|
  }

  /** A nonempty proper prefix of an item. */
  ghost predicate Truncated(p: seq<byte>) {
    p != [] && exists q :: q != [] && Complete(p + q)
  }

  ghost predicate Items(parts: seq<seq<byte>>) {
    forall i :: 0 <= i < |parts| ==> Complete(parts[i])
  }

  function Flatten(parts: seq<seq<byte>>): seq<byte> {
    if parts == [] then [] else parts[0] + Flatten(parts[1..])
  }

  // An item depends on its own bytes only.

  lemma ParseLocal(p: seq<byte>, x: seq<byte>)
    requires Parse(p).Done?
    ensures Parse(p + x) == Parse(p)
  {
    hide LayoutOf;
    var t := p + x;
    match LayoutOf(p[0])
    case Immediate(_) =>
    case Number(w, _) =>
      assert t[1..1 + w] == p[1..1 + w];
    case Blob(w, fixed, kind) =>
      assert t[1..1 + w] == p[1..1 + w];
      var len := if w == 0 then fixed else Num(p[1..1 + w]);
      var h := 1 + w + TypeWidth(kind);
      assert t[h..h + len] == p[h..h + len];
  }

  lemma ParseOwnBytes(t: seq<byte>)
    requires Parse(t).Done?
    ensures Parse(t[..Parse(t).used]) == Parse(t)
  {
    hide LayoutOf;
    var p := t[..Parse(t).used];
    match LayoutOf(t[0])
    case Immediate(_) =>
    case Number(w, _) =>
      assert t[1..1 + w] == p[1..1 + w];
    case Blob(w, fixed, kind) =>
      assert t[1..1 + w] == p[1..1 + w];
      var len := if w == 0 then fixed else Num(p[1..1 + w]);
      var h := 1 + w + TypeWidth(kind);
      assert t[h..h + len] == p[h..h + len];
  }

  /** The items of a run of complete items. */
  function ItemsOf(parts: seq<seq<byte>>): (r: seq<Item>)
    requires Items(parts)
    ensures |r| == |parts|
  {
    seq(|parts|, i requires 0 <= i < |parts| => Parse(parts[i]).item)
  }

  lemma ParseFirst(parts: seq<seq<byte>>, rest: seq<byte>)
    requires Items(parts) && parts != []
    ensures var t := Flatten(parts) + rest;
            Parse(t) == Parse(parts[0]) && t[Parse(t).used..] == Flatten(parts[1..]) + rest
  {
    hide Parse;
    var x := Flatten(parts[1..]) + rest;
    ParseLocal(parts[0], x);
    assert Flatten(parts) + rest == parts[0] + x;
  }

  // Underflow means truncation.

  function Zeros(n: nat): (z: seq<byte>)
    ensures |z| == n
  {
    seq(n, _ => 0)
  }

  lemma CompleteBlob(p: seq<byte>, w: nat, fixed: nat, kind: BlobKind)
    requires p != [] && LayoutOf(p[0]) == Blob(w, fixed, kind) && |p| >= 1 + w
    ensures var n := 1 + w + TypeWidth(kind) + (if w == 0 then fixed else Num(p[1..1 + w]));
            n >= |p| ==> Complete(p + Zeros(n - |p|))
  {
    hide LayoutOf;
    var n := 1 + w + TypeWidth(kind) + (if w == 0 then fixed else Num(p[1..1 + w]));
    if n >= |p| {
      assert (p + Zeros(n - |p|))[1..1 + w] == p[1..1 + w];
    }
  }

  lemma TruncatedNumber(p: seq<byte>, w: nat, kind: NumberKind)
    requires p != [] && LayoutOf(p[0]) == Number(w, kind) && |p| < 1 + w
    ensures Truncated(p)
  {
    hide LayoutOf;
    assert Complete(p + Zeros(1 + w - |p|));
  }

  lemma TruncatedBlob(p: seq<byte>, w: nat, fixed: nat, kind: BlobKind)
    requires p != [] && LayoutOf(p[0]) == Blob(w, fixed, kind) && Parse(p).Fail?
    ensures Truncated(p)
  {
    hide LayoutOf;
    var q := if |p| < 1 + w then Zeros(1 + w - |p|) else [];
    var p1 := p + q;
    CompleteBlob(p1, w, fixed, kind);
    assert |p| >= 1 + w ==> p1 == p;
    var n := 1 + w + TypeWidth(kind) + (if w == 0 then fixed else Num(p1[1..1 + w]));
    hide Complete;
    assert n >= |p1|;
    var q2 := q + Zeros(n - |p1|);
    assert p + q2 == p1 + Zeros(n - |p1|);
  }

  lemma UnderflowIsTruncated(p: seq<byte>)
    requires Parse(p).Fail? && Parse(p).code == BufferUnderflow
    ensures Truncated(p)
  {
    hide LayoutOf, Truncated;
    match LayoutOf(p[0])
    case Number(w, kind) => TruncatedNumber(p, w, kind);
    case Blob(w, fixed, kind) => TruncatedBlob(p, w, fixed, kind);
    case _ =>
  }

  lemma TruncatedUnderflows(p: seq<byte>)
    requires Truncated(p)
    ensures Parse(p).Fail? && Parse(p).code == BufferUnderflow
  {
    var q :| q != [] && Complete(p + q);
    if Parse(p).Done? {
      ParseLocal(p, q);
    }
    hide LayoutOf;
  }

  // Every byte string is a run of items and a remainder that does not parse.

  lemma {:induction false} ScanItems(parts: seq<seq<byte>>, r: seq<byte>)
    requires Items(parts) && Parse(r).Fail?
    ensures Scan(Flatten(parts) + r) == Parse(r).code
  {
    hide Parse;
    if parts == [] {
      assert [] + r == r;
    } else {
      var rest := Flatten(parts[1..]) + r;
      ScanItems(parts[1..], r);
      ParseLocal(parts[0], rest);
      assert Flatten(parts) + r == parts[0] + rest;
      assert (parts[0] + rest)[|parts[0]|..] == rest;
    }
  }

  lemma {:induction false} SplitItems(t: seq<byte>) returns (parts: seq<seq<byte>>, r: seq<byte>)
    ensures Items(parts) && Flatten(parts) + r == t && Parse(r).Fail?
    decreases |t|
  {
    hide Parse;
    if Parse(t).Fail? {
      parts, r := [], t;
    } else {
      var used := Parse(t).used;
      ParseOwnBytes(t);
      var ps;
      ps, r := SplitItems(t[used..]);
      parts := [t[..used]] + ps;
      assert parts[1..] == ps;
    }
  }

  /**
   The verdict on every byte string. Unpacking ends with END_OF_INPUT exactly on a run of complete items,
   with MALFORMED_INPUT exactly when the byte 0xc1 stands where the next item should start,
   and with BUFFER_UNDERFLOW exactly when the last item is cut short.
   */
  lemma {:induction false} Verdict(t: seq<byte>)
    ensures Scan(t) == EndOfInput <==> exists parts :: Items(parts) && Flatten(parts) == t
    ensures Scan(t) == MalformedInput <==> exists parts, x :: Items(parts) && Flatten(parts) + ([0xc1] + x) == t
    ensures Scan(t) == BufferUnderflow <==> exists parts, p :: Items(parts) && Truncated(p) && Flatten(parts) + p == t
    ensures Scan(t) == EndOfInput || Scan(t) == MalformedInput || Scan(t) == BufferUnderflow
  {
    var parts, r := SplitItems(t);
    ScanItems(parts, r);
    FailureCodes(r);
    if r == [] {
      assert Flatten(parts) + [] == Flatten(parts);
    } else if r[0] == 0xc1 {
      assert r == [0xc1] + r[1..];
    } else {
      UnderflowIsTruncated(r);
    }
    hide Parse;
    forall parts | Items(parts) && Flatten(parts) == t
      ensures Scan(t) == EndOfInput
    {
      EndFails();
      ScanItems(parts, []);
      assert Flatten(parts) + [] == Flatten(parts);
    }
    forall parts, x | Items(parts) && Flatten(parts) + ([0xc1] + x) == t
      ensures Scan(t) == MalformedInput
    {
      FailureCodes([0xc1] + x);
      ScanItems(parts, [0xc1] + x);
    }
    forall parts, p | Items(parts) && Truncated(p) && Flatten(parts) + p == t
      ensures Scan(t) == BufferUnderflow
    {
      TruncatedUnderflows(p);
      ScanItems(parts, p);
    }
  }

  lemma FailureCodes(r: seq<byte>)
    ensures r != [] && r[0] == 0xc1 ==> Parse(r) == Fail(MalformedInput, 1)
    ensures Parse(r).Fail? ==>
              Parse(r).code == if r == [] then EndOfInput else if r[0] == 0xc1 then MalformedInput else BufferUnderflow
  {
  }

  // Repeated calls.

  function NextN(r: Reader, n: nat): Reader
    decreases n
  {
    if n == 0 then r else NextN(Next(r), n - 1)
  }

  /** The code is settled after at most one call more than there are bytes, and stays. */
  lemma {:induction false} ScanSettles(r: Reader, n: nat)
    requires r.code == Ok && n > |r.rest|
    ensures NextN(r, n).code == Scan(r.rest)
    decreases n
  {
    hide Parse, Put;
    match Parse(r.rest)
    case Done(it, used) => ScanSettles(Next(r), n - 1);
    case Fail(_, _) => ErrorSticks(Next(r), n - 1);
  }

  lemma {:induction false} ErrorSticks(r: Reader, n: nat)
    requires r.code != Ok
    ensures NextN(r, n) == r
  {
    if n > 0 {
      ErrorSticks(r, n - 1);
    }
  }

  /** No call leaves the buffer: what is consumed and what is left always make up the same bytes. */
  lemma {:induction false} StaysInside(r: Reader, n: nat)
    ensures var s := NextN(r, n);
            s.pos >= r.pos && s.pos - r.pos <= |r.rest| && s.rest == r.rest[s.pos - r.pos..]
    decreases n
  {
    hide Parse, Put;
    if n > 0 {
      var s := Next(r);
      assert s.pos >= r.pos && s.pos - r.pos <= |r.rest| && s.rest == r.rest[s.pos - r.pos..];
      StaysInside(s, n - 1);
      var u := NextN(s, n - 1);
      assert r.rest[s.pos - r.pos..][u.pos - s.pos..] == r.rest[u.pos - r.pos..];
    }
  }
}

/**
 `cw_skip_items`: one loop and one 32-bit counter in place of recursion, with its own table of lengths.
 It is compared with a loop of `cw_unpack_next` and with structural recursion over values.
 */
module Skip {
  import opened Bytes
  import opened Format
  import opened Tree
  import opened Unpacker

  /** Where a walk over items ends: its return code, and the bytes stepped over. */
  datatype Walked = Walked(code: Code, at: nat)

  function Shift(w: Walked, n: nat): Walked {
    w.(at := w.at + n)
  }

  // The reference: unpack items one at a time, adding the children of each container to the count.

  function Walk(t: seq<byte>, k: int): Walked
    decreases |t|
  {
    if k <= 0 then Walked(Ok, 0)
    else match Parse(t)
      case Fail(code, at) => Walked(code, at)
      case Done(it, used) => Shift(Walk(t[used..], k - 1 + Count(it)), used)
  }

  /** A walk over `k` complete values and `j` more items goes on after the values. */
  lemma {:induction false} WalkValues(t: seq<byte>, k: nat, n: nat, j: nat)
    requires BuildAll(t, k).Some? && BuildAll(t, k).value.1 == n
    ensures Walk(t, k + j) == Shift(Walk(t[n..], j), n)
    decreases |t|, 1
  {
    hide Parse;
    if k == 0 {
      assert t[0..] == t;
    } else {
      var m := Build(t).value.1;
      WalkValue(t, m, k - 1 + j);
      WalkValues(t[m..], k - 1, n - m, j);
      assert t[m..][n - m..] == t[n..];
    }
  }

  lemma {:induction false} WalkValue(t: seq<byte>, n: nat, j: nat)
    requires Build(t).Some? && Build(t).value.1 == n
    ensures Walk(t, 1 + j) == Shift(Walk(t[n..], j), n)
    decreases |t|, 0
  {
    hide Parse;
    var Done(it, used) := Parse(t);
    WalkValues(t[used..], Count(it), n - used, j);
    assert t[used..][n - used..] == t[n..];
  }

  lemma {:induction false} OkWalkIsValues(t: seq<byte>, k: nat, j: nat)
    requires Walk(t, k + j).code == Ok
    ensures BuildAll(t, k).Some?
    decreases |t|
  {
    hide Parse;
    if k > 0 {
      var Done(it, used) := Parse(t);
      OkWalkIsValues(t[used..], Count(it), k - 1 + j);
      var n := Build(t).value.1;
      WalkValue(t, n, k - 1 + j);
      OkWalkIsValues(t[n..], k - 1, j);
    }
  }

  /** The flat count agrees with structural recursion: it ends well exactly on `k` complete values, at their end. */
  lemma {:induction false} WalkExact(t: seq<byte>, k: nat)
    ensures Walk(t, k).code == Ok <==> BuildAll(t, k).Some?
    ensures BuildAll(t, k).Some? ==> Walk(t, k) == Walked(Ok, BuildAll(t, k).value.1)
  {
    if BuildAll(t, k).Some? {
      WalkValues(t, k, BuildAll(t, k).value.1, 0);
    } else if Walk(t, k).code == Ok {
      OkWalkIsValues(t, k, 0);
    }
  }

  // The code's own table.

  /** What to do after the first byte: pass `n` bytes, a counted run of bytes, or announce items. */
  datatype Jump =
    | Plain(n: nat)
    | Counted(width: nat, extra: nat)
    | Items(n: nat)
    | CountedItems(width: nat, factor: nat)
    | Bad

  function JumpOf(c: byte): Jump {
    if c < 0x80 || c >= 0xe0 || c == 0xc0 || c == 0xc2 || c == 0xc3 then Plain(0)
    else if c == 0xcc || c == 0xd0 then Plain(1)
    else if c == 0xcd || c == 0xd1 || c == 0xd4 then Plain(2)
    else if c == 0xd5 then Plain(3)
    else if c == 0xca || c == 0xce || c == 0xd2 then Plain(4)
    else if c == 0xd6 then Plain(5)
    else if c == 0xcb || c == 0xcf || c == 0xd3 then Plain(8)
    else if c == 0xd7 then Plain(9)
    else if c == 0xd8 then Plain(17)
    else if 0xa0 <= c < 0xc0 then Plain(c % 32)
    else if c == 0xd9 || c == 0xc4 then Counted(1, 0)
    else if c == 0xda || c == 0xc5 then Counted(2, 0)
    else if c == 0xdb || c == 0xc6 then Counted(4, 0)
    else if 0x80 <= c < 0x90 then Items(2 * (c % 16))
    else if 0x90 <= c < 0xa0 then Items(c % 16)
    else if c == 0xdc then CountedItems(2, 1)
    else if c == 0xde then CountedItems(2, 2)
    else if c == 0xdd then CountedItems(4, 1)
    else if c == 0xdf then CountedItems(4, 2)
    else if c == 0xc7 then Counted(1, 1)
    else if c == 0xc8 then Counted(2, 1)
    else if c == 0xc9 then Counted(4, 1)
    else Bad
  }

  /** One turn of the loop: `bytes` passed and `items` announced, or an error after `at` bytes. */
  datatype Turn = Hop(bytes: nat, items: nat) | Stop(code: Code, at: nat)

  /** Lengths and item counts are 32-bit: adding the type byte or doubling can wrap. */
  function TurnOf(t: seq<byte>): (r: Turn)
    ensures r.Hop? ==> 0 < r.bytes <= |t|
    ensures r.Stop? ==> r.code != Ok && r.at <= |t|
  {
    if t == [] then Stop(EndOfInput, 0)
    else match JumpOf(t[0])
      case Bad => Stop(MalformedInput, 1)
      case Plain(n) => if |t| < 1 + n then Stop(BufferUnderflow, 1) else Hop(1 + n, 0)
      case Items(n) => Hop(1, n)
      case Counted(w, extra) =>
        if |t| < 1 + w then Stop(BufferUnderflow, 1)
        else
          var n := (Num(t[1..1 + w]) + extra) % U32;
          if |t| < 1 + w + n then Stop(BufferUnderflow, 1 + w) else Hop(1 + w + n, 0)
      case CountedItems(w, factor) =>
        if |t| < 1 + w then Stop(BufferUnderflow, 1)
        else Hop(1 + w, factor * Num(t[1..1 + w]) % U32)
  }

  /** Conversion to a 32-bit `long`. */
  function ToLong(x: int): int {
    (x + I31) % U32 - I31
  }

  /** The loop of `cw_skip_items`. */
  function Skim(t: seq<byte>, k: int): (r: Walked)
    ensures r.at <= |t|
    decreases |t|
  {
    if k <= 0 then Walked(Ok, 0)
    else match TurnOf(t)
      case Stop(code, at) => Walked(code, at)
      case Hop(bytes, items) => Shift(Skim(t[bytes..], ToLong(k - 1 + items)), bytes)
  }

  /** The announced length 0xffffffff of an extension, to which the code adds one. */
  predicate ExtWraps(t: seq<byte>) {
    |t| >= 5 && t[0] == 0xc9 && Num(t[1..5]) == U32 - 1
  }

  lemma JumpMatchesLayout(c: byte)
    ensures match LayoutOf(c)
            case Illegal => JumpOf(c) == Bad
            case Immediate(it) => JumpOf(c) == (if it.Array? || it.Map? then Items(Count(it)) else Plain(0))
            case Number(w, ArraySize) => JumpOf(c) == CountedItems(w, 1)
            case Number(w, MapSize) => JumpOf(c) == CountedItems(w, 2)
            case Number(w, _) => JumpOf(c) == Plain(w)
            case Blob(w, fixed, kind) =>
              JumpOf(c) == if w == 0 then Plain(fixed + TypeWidth(kind)) else Counted(w, TypeWidth(kind))
    ensures LayoutOf(c) == Blob(4, 0, ExtBlob) <==> c == 0xc9
    ensures LayoutOf(c) == Blob(2, 0, ExtBlob) <==> c == 0xc8
    ensures LayoutOf(c) == Blob(1, 0, ExtBlob) <==> c == 0xc7
    ensures LayoutOf(c).Blob? && LayoutOf(c).lengthWidth == 0 && LayoutOf(c).blob == ExtBlob <==> 0xd4 <= c <= 0xd8
    ensures LayoutOf(c).Blob? && LayoutOf(c).lengthWidth > 0 ==> LayoutOf(c).fixed == 0
  {
  }

  ghost predicate TurnMatches(t: seq<byte>) {
    match Parse(t)
    case Done(it, used) => TurnOf(t) == Hop(used, Count(it) % U32)
    case Fail(code, at) => TurnOf(t) == Stop(code, if PastType(t, at) then at - 1 else at)
  }

  /** Unpacking has passed the type byte of an extension; skipping asks for type and data in one. */
  predicate PastType(t: seq<byte>, at: nat) {
    t != [] && (|| (t[0] == 0xc7 && at == 3) || (t[0] == 0xc8 && at == 4) || (t[0] == 0xc9 && at == 6)
                || (0xd4 <= t[0] <= 0xd8 && at == 2))
  }

  lemma TurnNumber(t: seq<byte>)
    requires t != [] && LayoutOf(t[0]).Number?
    ensures TurnMatches(t)
  {
    JumpMatchesLayout(t[0]);
    LayoutSound(t[0]);
    hide JumpOf, LayoutOf;
  }

  lemma TurnBlob(t: seq<byte>)
    requires t != [] && LayoutOf(t[0]).Blob? && !ExtWraps(t)
    ensures TurnMatches(t)
  {
    JumpMatchesLayout(t[0]);
    LayoutSound(t[0]);
    hide JumpOf, LayoutOf;
    var w := LayoutOf(t[0]).lengthWidth;
    if w > 0 && |t| >= 1 + w {
      Powers();
      NumBound(t[1..1 + w]);
      var l := Num(t[1..1 + w]);
      assert l + TypeWidth(LayoutOf(t[0]).blob) < U32;
    }
  }

  /** One turn does what one `cw_unpack_next` does, unless an extension's length wraps. */
  lemma TurnMatchesParse(t: seq<byte>)
    requires !ExtWraps(t)
    ensures TurnMatches(t)
  {
    if t != [] {
      JumpMatchesLayout(t[0]);
      LayoutSound(t[0]);
      hide JumpOf, LayoutOf;
      match LayoutOf(t[0])
      case Illegal =>
      case Immediate(_) =>
      case Number(_, _) => TurnNumber(t);
      case Blob(_, _, _) => TurnBlob(t);
    }
  }

  // Where the 32-bit arithmetic is harmless.

  /** On the way of a walk of `k` items from `t`, neither the count nor a length leaves its 32 bits. */
  predicate NoWrap(t: seq<byte>, k: int)
    decreases |t|
  {
    k <= 0 ||
    (&& !ExtWraps(t)
     && match Parse(t)
        case Fail(_, _) => true
        case Done(it, used) => k - 1 + Count(it) < I31 && NoWrap(t[used..], k - 1 + Count(it)))
  }

  lemma ToLongIs(x: int)
    ensures -I31 <= ToLong(x) < I31 && (ToLong(x) - x) % U32 == 0
    ensures -I31 <= x < I31 ==> ToLong(x) == x
  {
  }

  lemma ExtWrapHops(t: seq<byte>)
    requires ExtWraps(t)
    ensures TurnOf(t) == Hop(5, 0)
  {
  }

  /**
   The loop on any bytes, turn by turn: an item is stepped over as unpacking would, and its children are added to a
   32-bit count that wraps; an extension whose length wraps is stepped over as its header alone.
   */
  lemma {:induction false} SkimUnfolds(t: seq<byte>, k: int) returns (left: int)
    requires 0 < k < I31
    ensures -I31 <= left < I31
    ensures if ExtWraps(t) then Skim(t, k) == Shift(Skim(t[5..], k - 1), 5)
            else match Parse(t)
              case Fail(code, at) => Skim(t, k) == Walked(code, if PastType(t, at) then at - 1 else at)
              case Done(it, used) =>
                (left - (k - 1 + Count(it))) % U32 == 0 && Skim(t, k) == Shift(Skim(t[used..], left), used)
  {
    hide Parse, TurnOf, ExtWraps, PastType;
    left := 0;
    if ExtWraps(t) {
      ExtWrapHops(t);
      ToLongIs(k - 1);
    } else {
      TurnMatchesParse(t);
      if Parse(t).Done? {
        var n := Count(Parse(t).item);
        left := ToLong(k - 1 + n % U32);
        ToLongIs(k - 1 + n % U32);
      }
    }
  }

  /** On any bytes: without wrap-around the two loops return the same code and end together, or one byte apart. */
  lemma {:induction false} SkimSimulatesWalk(t: seq<byte>, k: int)
    requires k < I31 && NoWrap(t, k)
    ensures Skim(t, k).code == Walk(t, k).code
    ensures Skim(t, k).code == Ok ==> Skim(t, k) == Walk(t, k)
    ensures Skim(t, k).code != Ok ==> Walk(t, k).at - 1 <= Skim(t, k).at <= Walk(t, k).at
    decreases |t|
  {
    hide Parse, TurnOf, ExtWraps;
    if k > 0 {
      TurnMatchesParse(t);
      match Parse(t)
      case Fail(_, _) =>
      case Done(it, used) =>
        SkimSimulatesWalk(t[used..], k - 1 + Count(it));
        assert ToLong(k - 1 + Count(it) % U32) == k - 1 + Count(it);
    }
  }

  lemma ExtWrapsFails(t: seq<byte>)
    requires ExtWraps(t) && |t| < U32
    ensures Parse(t) == Fail(BufferUnderflow, if |t| < 6 then 5 else 6)
  {
  }

  /** A walk that ends well never has more items pending than bytes left, so below 2^31 bytes nothing wraps. */
  lemma {:induction false} OkWalkDoesNotWrap(t: seq<byte>, k: int)
    requires |t| < I31 && Walk(t, k).code == Ok
    ensures k <= |t| && NoWrap(t, k)
    decreases |t|
  {
    hide Parse, ExtWraps;
    if k > 0 {
      if ExtWraps(t) {
        ExtWrapsFails(t);
      }
      var Done(it, used) := Parse(t);
      OkWalkDoesNotWrap(t[used..], k - 1 + Count(it));
    }
  }

  /**
   The main theorem on skipping. On a buffer of fewer than 2^31 bytes that starts with `k` complete values,
   however nested, `cw_skip_items(k)` returns OK exactly at the end of the last one.
   */
  lemma {:induction false} SkipsWholeValues(t: seq<byte>, k: nat)
    requires |t| < I31 && BuildAll(t, k).Some?
    ensures Skim(t, k) == Walked(Ok, BuildAll(t, k).value.1)
  {
    WalkExact(t, k);
    OkWalkDoesNotWrap(t, k);
    SkimSimulatesWalk(t, k);
  }

  /** Conversely an OK tells the truth exactly when nothing wrapped on the way. */
  lemma {:induction false} SkipOkIffNoWrap(t: seq<byte>, k: nat)
    requires |t| < I31 && k < I31 && Skim(t, k).code == Ok
    ensures BuildAll(t, k).Some? <==> NoWrap(t, k)
  {
    WalkExact(t, k);
    if NoWrap(t, k) {
      SkimSimulatesWalk(t, k);
    } else if Walk(t, k).code == Ok {
      OkWalkDoesNotWrap(t, k);
    }
  }

  /** A header that wraps: a map of 2^31 pairs is skipped as if it were empty. */
  lemma {:induction false} SkipCanWrapMap()
    ensures var t := [0xdf, 0x80, 0, 0, 0]; Skim(t, 1) == Walked(Ok, 5) && Walk(t, 1).code == EndOfInput
  {
    var t: seq<byte> := [0xdf, 0x80, 0, 0, 0];
    FourBytes(t[1..5]);
    assert JumpOf(t[0]) == CountedItems(4, 2);
    assert LayoutOf(t[0]) == Number(4, MapSize);
    hide LayoutOf, JumpOf;
    assert Num(t[1..5]) == I31;
    assert TurnOf(t) == Hop(5, 0);
    assert Parse(t) == Done(Map(I31), 5);
    hide TurnOf, Parse;
    assert t[5..] == [];
    EndFails();
  }

  /** Another: an extension of 2^32 - 1 bytes is skipped as if it had none. */
  lemma {:induction false} SkipCanWrapExt()
    ensures var t := [0xc9, 0xff, 0xff, 0xff, 0xff]; Skim(t, 1) == Walked(Ok, 5) && Walk(t, 1).code == BufferUnderflow
  {
    var t: seq<byte> := [0xc9, 0xff, 0xff, 0xff, 0xff];
    FourBytes(t[1..5]);
    assert TurnOf(t) == Hop(5, 0);
    assert Parse(t) == Fail(BufferUnderflow, 5);
  }

  lemma FourBytes(b: seq<byte>)
    requires |b| == 4
    ensures Num(b) == (b[0] as int) * 0x100_0000 + (b[1] as int) * 0x1_0000 + (b[2] as int) * 0x100 + b[3]
  {
    var b0: int, b1: int, b2: int, b3: int := b[0], b[1], b[2], b[3];
    assert b == [b0] + [b1] + [b2] + [b3];
    NumSnoc([b0] + [b1] + [b2], b3);
    NumSnoc([b0] + [b1], b2);
    NumSnoc([b0], b1);
  }

  // The code.

  /** Passes one item whose first byte `c` has been read; `more` items are announced. `t` starts at that byte. */
  method SkipOne(uc: UnpackContext, c: byte, ghost t: seq<byte>) returns (ok: bool, more: nat)
    requires uc.Valid() && uc.current > 0 && t == uc.buf[uc.current - 1..uc.end] && t[0] == c
    modifies uc
    ensures uc.Valid() && uc.end == old(uc.end) && uc.current >= old(uc.current)
    ensures ok ==> && TurnOf(t) == Hop(uc.current - old(uc.current) + 1, more)
                   && uc.code == old(uc.code) && uc.typ == old(uc.typ) && uc.lo == old(uc.lo) && uc.hi == old(uc.hi)
    ensures !ok ==> TurnOf(t) == Stop(uc.code, uc.current - old(uc.current) + 1) && uc.typ == NOT_AN_ITEM
  {
    more := 0;
    match JumpOf(c) {
      case Bad =>
        uc.typ, uc.code, ok := NOT_AN_ITEM, MalformedInput, false;
      case Plain(n) =>
        var p;
        ok, p := uc.AssertSpace(n, BufferUnderflow);
      case Items(n) =>
        ok, more := true, n;
      case Counted(w, extra) =>
        var n;
        ok, n := SkipCount(uc, w, t);
        if ok {
          var p;
          ok, p := uc.AssertSpace((n + extra) % U32, BufferUnderflow);
        }
      case CountedItems(w, factor) =>
        var n;
        ok, n := SkipCount(uc, w, t);
        if ok {
          more := factor * n % U32;
        }
    }
  }

  method SkipCount(uc: UnpackContext, w: nat, ghost t: seq<byte>) returns (ok: bool, n: nat)
    requires uc.Valid() && uc.current > 0 && t == uc.buf[uc.current - 1..uc.end] && (w == 1 || w == 2 || w == 4)
    modifies uc
    ensures uc.Valid() && uc.end == old(uc.end) && uc.lo == old(uc.lo) && uc.hi == old(uc.hi)
    ensures ok == (1 + w <= |t|)
    ensures ok ==> && n == Num(t[1..1 + w]) && uc.current == old(uc.current) + w
                   && uc.code == old(uc.code) && uc.typ == old(uc.typ)
    ensures !ok ==> uc.current == old(uc.current) && uc.code == BufferUnderflow && uc.typ == NOT_AN_ITEM
  {
    var p;
    n := 0;
    ok, p := uc.AssertSpace(w, BufferUnderflow);
    if ok {
      SubSlice(uc.buf, p - 1, uc.end, 1, 1 + w);
      if w == 1 {
        n := uc.buf[p];
        NumSnoc([], n);
        assert uc.buf[p..p + 1] == [] + [n];
      } else if w == 2 {
        n := uc.Load16(p);
      } else {
        n := uc.Load32(p);
      }
    }
  }

  /** One turn of the loop, with `n` items pending before it and `left` after it. */
  method SkipTurn(uc: UnpackContext, n: int) returns (ok: bool, left: int)
    requires uc.Valid() && uc.code == Ok && n > 0
    modifies uc
    ensures uc.Valid() && uc.end == old(uc.end) && uc.current >= old(uc.current)
    ensures ok ==> && Skim(old(uc.State().rest), n) == Shift(Skim(uc.State().rest, left), uc.current - old(uc.current))
                   && uc.current > old(uc.current) && uc.code == Ok && uc.State().cell == old(uc.State().cell)
    ensures !ok ==> && Skim(old(uc.State().rest), n) == Walked(uc.code, uc.current - old(uc.current))
                    && uc.code != Ok && uc.typ == NOT_AN_ITEM
  {
    hide JumpOf, ToLong, TurnOf, Skim;
    ghost var rest, here := uc.State().rest, uc.current;
    SkimTurn(rest, n);
    left := n - 1;
    var p;
    ok, p := uc.AssertSpace(1, EndOfInput);
    if ok {
      var more;
      ok, more := SkipOne(uc, uc.buf[p], rest);
      if ok {
        left := ToLong(left + more);
        SuffixSlice(uc.buf, here, uc.end, uc.current);
      }
    }
  }

  /** Steps over `itemCount` items with all their children. */
  method SkipItems(uc: UnpackContext, itemCount: int)
    requires uc.Valid() && -I31 <= itemCount < I31
    modifies uc
    ensures uc.Valid() && uc.end == old(uc.end)
    ensures old(uc.code) != Ok ==> uc.State() == old(uc.State())
    ensures old(uc.code) == Ok ==>
              var w := Skim(old(uc.State().rest), itemCount);
              && uc.code == w.code && uc.current == old(uc.current) + w.at
              && (w.code == Ok ==> uc.State().cell == old(uc.State().cell))
              && (w.code != Ok ==> uc.typ == NOT_AN_ITEM)
  {
    if uc.code != Ok {
      return;
    }
    hide Skim;
    var n := itemCount;
    while n > 0
      invariant uc.Valid() && uc.end == old(uc.end) && old(uc.current) <= uc.current
      invariant uc.code == Ok && uc.State().cell == old(uc.State().cell)
      invariant Skim(old(uc.State().rest), itemCount) == Shift(Skim(uc.State().rest, n), uc.current - old(uc.current))
      decreases uc.end - uc.current
    {
      var ok;
      ok, n := SkipTurn(uc, n);
      if !ok {
        return;
      }
    }
    SkimNone(uc.State().rest, n);
  }

  lemma SkimTurn(t: seq<byte>, k: int)
    requires k > 0
    ensures t == [] ==> Skim(t, k) == Walked(EndOfInput, 0)
    ensures match TurnOf(t)
            case Stop(code, at) => Skim(t, k) == Walked(code, at)
            case Hop(bytes, items) => Skim(t, k) == Shift(Skim(t[bytes..], ToLong(k - 1 + items)), bytes)
  {
  }

  lemma SkimNone(t: seq<byte>, k: int)
    requires k <= 0
    ensures Skim(t, k) == Walked(Ok, 0)
  {
  }
}

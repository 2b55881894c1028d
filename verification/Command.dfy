/** The command interpreter: a map of settings read item by item and applied to the motor as it goes. */
module Command {
  import opened Bytes
  import opened Format
  import opened Unpacker
  import opened Stream

  /** The settings a command can change; the current target is a float's bits. */
  datatype Motor = Motor(enabled: bool, iTarget: nat)

  const ENABLE: seq<byte> := [0x65, 0x6e, 0x61, 0x62, 0x6c, 0x65]
  const I_TARGET: seq<byte> := [0x69, 0x5f, 0x74, 0x61, 0x72, 0x67, 0x65, 0x74]

  /**
   `strncmp(mem + p, lit, n) == 0`, from character `i` on, for a literal `lit` ended by a zero byte.
   Past the end of `mem` nothing compares equal.
   */
  function Same(mem: seq<byte>, p: int, lit: seq<byte>, i: nat, n: int): bool
    decreases n - i
  {
    if i >= n then true
    else if !(0 <= p + i < |mem|) then false
    else
      var b := if i < |lit| then lit[i] else 0;
      if mem[p + i] != b then false
      else if b == 0 then true
      else Same(mem, p, lit, i + 1, n)
  }

  /** The comparison of a key with a literal over the length of the key. */
  function Matches(key: seq<byte>, lit: seq<byte>): bool {
    Same(key, 0, lit, 0, |key|)
  }

  /** A key matches exactly when it is a beginning of the literal, or the literal and a zero byte begin it. */
  lemma MatchesIff(key: seq<byte>, lit: seq<byte>)
    requires 0 !in lit
    ensures Matches(key, lit) <==> key <= lit || lit + [0] <= key
  {
    SameIff(key, lit, 0);
  }

  lemma {:induction false} SameIff(key: seq<byte>, lit: seq<byte>, i: nat)
    requires 0 !in lit && i <= |key| && i <= |lit| && key[..i] == lit[..i]
    ensures Same(key, 0, lit, i, |key|) <==> key <= lit || lit + [0] <= key
    decreases |key| - i
  {
    if i == |key| {
    } else if i == |lit| {
      assert key[..i] == lit;
      assert lit + [0] <= key <==> key[i] == 0;
    } else if key[i] == lit[i] {
      assert lit[i] in lit;
      assert key[..i + 1] == lit[..i + 1];
      SameIff(key, lit, i + 1);
    } else {
      assert (lit + [0])[i] == lit[i];
    }
  }

  lemma {:induction false} SameElsewhere(mem: seq<byte>, p: nat, key: seq<byte>, lit: seq<byte>, i: nat)
    requires p + |key| <= |mem| && mem[p..p + |key|] == key
    ensures Same(mem, p, lit, i, |key|) == Same(key, 0, lit, i, |key|)
    decreases |key| - i
  {
    if i < |key| {
      assert mem[p + i] == key[i];
      SameElsewhere(mem, p, key, lit, i + 1);
    }
  }

  /** One pair of a key and a value. */
  function Update(m: Motor, key: seq<byte>, v: Item): Motor {
    var m1 := if Matches(key, ENABLE) && v.Boolean? then m.(enabled := v.b) else m;
    if Matches(key, I_TARGET) && v.Float? then m1.(iTarget := v.bits) else m1
  }

  /** The next `k` pairs; a key that is not a string, or an error, ends the command. */
  function Pairs(t: seq<byte>, k: nat, m: Motor): Motor
    decreases k
  {
    if k == 0 then m
    else match Parse(t)
      case Done(Str(key), used) =>
        (match Parse(t[used..])
         case Done(v, used') => Pairs(t[used..][used'..], k - 1, Update(m, key, v))
         case _ => m)
      case _ => m
  }

  /** The size of a map, read into a signed 32-bit loop bound. */
  function LoopBound(size: nat): nat {
    if size < I31 then size else 0
  }

  /** A whole command. */
  function Interpret(t: seq<byte>, m: Motor): Motor {
    match Parse(t)
    case Done(Map(n), used) => Pairs(t[used..], LoopBound(n), m)
    case _ => m
  }

  // Commands made of complete items.

  /** Keys and values two by two, until a key is not a string. */
  function FoldPairs(items: seq<Item>, k: nat, m: Motor): Motor
    decreases k
  {
    if k == 0 || |items| < 2 || !items[0].Str? then m
    else FoldPairs(items[2..], k - 1, Update(m, items[0].data, items[1]))
  }

  /** On a run of complete items, nested or not, the interpreter folds over the flat items two by two. */
  lemma {:induction false} PairsFold(parts: seq<seq<byte>>, rest: seq<byte>, k: nat, m: Motor)
    requires Items(parts) && |parts| >= 2 * k
    ensures Pairs(Flatten(parts) + rest, k, m) == FoldPairs(ItemsOf(parts), k, m)
    decreases k
  {
    hide Parse, Update;
    if k > 0 {
      var items := ItemsOf(parts);
      ParseFirst(parts, rest);
      ParseFirst(parts[1..], rest);
      var tail := parts[1..][1..];
      assert ItemsOf(tail) == items[2..];
      if items[0].Str? {
        PairsFold(tail, rest, k - 1, Update(m, items[0].data, items[1]));
      }
    }
  }

  // What a list of items does to the motor, whatever its settings were.

  /** The settings a list of keys and values assigns: the last of each kind, if any. */
  datatype Effect = Effect(enable: Option<bool>, target: Option<nat>)

  const NO_EFFECT := Effect(None, None)

  function PairEffect(key: seq<byte>, v: Item): Effect {
    Effect(if Matches(key, ENABLE) && v.Boolean? then Some(v.b) else None,
           if Matches(key, I_TARGET) && v.Float? then Some(v.bits) else None)
  }

  /** First `a`, then `b`. */
  function Then(a: Effect, b: Effect): Effect {
    Effect(if b.enable.Some? then b.enable else a.enable, if b.target.Some? then b.target else a.target)
  }

  function EffectOf(items: seq<Item>): Effect
    decreases |items|
  {
    if |items| < 2 || !items[0].Str? then NO_EFFECT
    else Then(PairEffect(items[0].data, items[1]), EffectOf(items[2..]))
  }

  function ApplyTo(e: Effect, m: Motor): Motor {
    Motor(if e.enable.Some? then e.enable.value else m.enabled, if e.target.Some? then e.target.value else m.iTarget)
  }

  /** Folding `k` pairs applies the effect of the first `2 * k` items. */
  lemma {:induction false} FoldIsEffect(items: seq<Item>, k: nat, m: Motor)
    requires |items| >= 2 * k
    ensures FoldPairs(items, k, m) == ApplyTo(EffectOf(items[..2 * k]), m)
    decreases k
  {
    hide Matches;
    if k > 0 && items[0].Str? {
      FoldIsEffect(items[2..], k - 1, Update(m, items[0].data, items[1]));
      assert items[..2 * k][2..] == items[2..][..2 * (k - 1)];
    }
  }

  // Commands made of any bytes.

  /** The first `n` items, or all if there are fewer. */
  function Take(items: seq<Item>, n: nat): seq<Item> {
    if n <= |items| then items[..n] else items
  }

  /**
   What a message does whose complete items are `items`: nothing unless the first announces a map of fewer than 2^31
   pairs; else what the complete pairs among those announced assign, up to the first key that is not a string.
   */
  function MessageEffect(items: seq<Item>): Effect {
    if items == [] || !items[0].Map? || items[0].size >= 0x8000_0000 then NO_EFFECT
    else EffectOf(Take(items[1..], 2 * items[0].size))
  }

  lemma UpdateIsEffect(m: Motor, key: seq<byte>, v: Item, e: Effect)
    ensures ApplyTo(e, Update(m, key, v)) == ApplyTo(Then(PairEffect(key, v), e), m)
    ensures ApplyTo(NO_EFFECT, m) == m
  {
    hide Matches;
  }

  /** Walking `k` pairs of a run of items that breaks off. */
  lemma {:induction false} PairsEffect(parts: seq<seq<byte>>, rest: seq<byte>, k: nat, m: Motor)
    requires Items(parts) && Parse(rest).Fail?
    ensures Pairs(Flatten(parts) + rest, k, m) == ApplyTo(EffectOf(Take(ItemsOf(parts), 2 * k)), m)
    decreases k
  {
    hide Parse, Update, PairEffect, Then, ApplyTo;
    var items := ItemsOf(parts);
    UpdateIsEffect(m, [], Nil, NO_EFFECT);
    if k > 0 {
      if parts == [] {
        assert Flatten(parts) + rest == rest;
      } else {
        ParseFirst(parts, rest);
        if items[0].Str? {
          if |parts| == 1 {
            assert Flatten(parts[1..]) + rest == rest;
          } else {
            ParseFirst(parts[1..], rest);
            var tail := parts[1..][1..];
            assert ItemsOf(tail) == items[2..];
            PairsEffect(tail, rest, k - 1, Update(m, items[0].data, items[1]));
            var front := Take(items, 2 * k);
            assert front[2..] == Take(items[2..], 2 * (k - 1));
            UpdateIsEffect(m, items[0].data, items[1], EffectOf(front[2..]));
          }
        }
      }
    }
  }

  /**
   The interpreter on every byte string. However it was spelled, nested or broken off, a message consists of complete
   items and a remainder that is none; the items alone decide what the message does to a motor.
   */
  lemma {:induction false} InterpretAnything(t: seq<byte>, m: Motor) returns (parts: seq<seq<byte>>, rest: seq<byte>)
    ensures Items(parts) && Flatten(parts) + rest == t && Parse(rest).Fail?
    ensures Interpret(t, m) == ApplyTo(MessageEffect(ItemsOf(parts)), m)
  {
    hide Pairs;
    parts, rest := SplitItems(t);
    hide Parse;
    if parts == [] {
      assert Flatten(parts) + rest == rest;
    } else {
      ParseFirst(parts, rest);
      var it := ItemsOf(parts)[0];
      if it.Map? {
        assert ItemsOf(parts[1..]) == ItemsOf(parts)[1..];
        PairsEffect(parts[1..], rest, LoopBound(it.size), m);
      }
    }
  }

  /** Two lists do the same to every motor exactly when their effects are equal. */
  lemma SameEffectIff(e: Effect, f: Effect)
    ensures (forall m :: ApplyTo(e, m) == ApplyTo(f, m)) <==> e == f
  {
    if e != f {
      var m, n := Motor(false, 0), Motor(true, 1);
      assert ApplyTo(e, m) != ApplyTo(f, m) || ApplyTo(e, n) != ApplyTo(f, n);
    }
  }

  /** One pair of a key and a value, if keys were compared with the names as wholes. */
  function NamedUpdate(m: Motor, key: seq<byte>, v: Item): Motor {
    if key == ENABLE && v.Boolean? then m.(enabled := v.b)
    else if key == I_TARGET && v.Float? then m.(iTarget := v.bits)
    else m
  }

  /** Neither a mere beginning of a name nor a name followed by a zero byte. */
  predicate Unambiguous(key: seq<byte>) {
    !(key < ENABLE) && !(key < I_TARGET) && !(ENABLE + [0] <= key) && !(I_TARGET + [0] <= key)
  }

  /** For an unambiguous key, and for no other, matching is being equal. */
  lemma MatchesNameIff(key: seq<byte>)
    ensures (Matches(key, ENABLE) <==> key == ENABLE) && (Matches(key, I_TARGET) <==> key == I_TARGET)
       <==> Unambiguous(key)
  {
    MatchesIff(key, ENABLE);
    MatchesIff(key, I_TARGET);
    assert ENABLE[0] != I_TARGET[0];
  }

  // The code.

  /** What the item record holds after a call, for the types the interpreter asks about. */
  lemma RecordAfterNext(r: Reader)
    requires r.code == Ok
    ensures var c, p := Next(r).cell, Parse(r.rest);
            && (c.typ == ITEM_STR <==> p.Done? && p.item.Str?)
            && (c.typ == ITEM_MAP <==> p.Done? && p.item.Map?)
            && (c.typ == ITEM_BOOLEAN <==> p.Done? && p.item.Boolean?)
            && (c.typ == ITEM_FLOAT <==> p.Done? && p.item.Float?)
            && (c.typ == ITEM_MAP ==> c.lo == p.item.size)
            && (c.typ == ITEM_BOOLEAN ==> (c.lo % 256 != 0) == p.item.b && c.hi == r.cell.hi)
            && (c.typ == ITEM_FLOAT ==> c.lo == p.item.bits && c.hi == r.cell.hi)
            && (p.Fail? ==> c.typ == NOT_AN_ITEM)
  {
    hide Parse, LengthSeen;
    if Parse(r.rest).Done? {
      ParsedInRange(r.rest);
    }
  }

  /** The string a call has just read lies in the buffer where the record points. */
  lemma KeyInBuffer(r: Reader, mem: seq<byte>)
    requires r.code == Ok && Parse(r.rest).Done? && Parse(r.rest).item.Str?
    requires r.pos + |r.rest| <= |mem| && mem[r.pos..r.pos + |r.rest|] == r.rest
    ensures var c, key := Next(r).cell, Parse(r.rest).item.data;
            0 <= c.lo && c.hi == |key| && c.lo + |key| <= |mem| && mem[c.lo..c.lo + |key|] == key
  {
    hide Parse, LengthSeen;
    BlobIsLast(r.rest);
    var Done(it, used) := Parse(r.rest);
    SubSlice(mem, r.pos, r.pos + |r.rest|, used - |it.data|, used);
  }

  class MotorControl {
    var enabled: bool
    var iTarget: nat

    ghost function Settings(): Motor
      reads this
    {
      Motor(enabled, iTarget)
    }

    constructor ()
      ensures Settings() == Motor(false, 0)
    {
      enabled, iTarget := false, 0;
    }
  }

  /** One turn of the loop over the map; `go` is false when the command ends early. */
  method HandlePair(mc: MotorControl, uc: UnpackContext) returns (go: bool)
    requires uc.Valid() && (uc.code != Ok ==> uc.typ == NOT_AN_ITEM)
    modifies mc, uc
    ensures uc.Valid() && (uc.code != Ok ==> uc.typ == NOT_AN_ITEM)
    ensures old(uc.code) != Ok ==> !go && mc.Settings() == old(mc.Settings())
    ensures old(uc.code) == Ok ==>
              var t, m := old(uc.State().rest), old(mc.Settings());
              match Parse(t)
              case Done(Str(key), used) =>
                go && (match Parse(t[used..])
                       case Done(v, used') =>
                         && uc.code == Ok && uc.State().rest == t[used..][used'..]
                         && mc.Settings() == Update(m, key, v)
                       case Fail(code, _) => uc.code == code && mc.Settings() == m)
              case _ => !go && mc.Settings() == m
  {
    hide Parse, Put, LengthSeen, Same;
    ghost var r0 := uc.State();
    if uc.code == Ok { RecordAfterNext(r0); }
    uc.UnpackNext();
    if uc.typ != ITEM_STR {
      go := false;
      return;
    }
    go := true;
    var key := uc.lo;
    ghost var r1, k := uc.State(), Parse(r0.rest).item.data;
    KeyInBuffer(r0, uc.buf);
    RecordAfterNext(r1);
    SameElsewhere(uc.buf, key, k, ENABLE, 0);
    SameElsewhere(uc.buf, key, k, I_TARGET, 0);
    uc.UnpackNext();
    if Same(uc.buf, key, ENABLE, 0, uc.hi) {
      if uc.typ == ITEM_BOOLEAN {
        mc.enabled := uc.lo % 256 != 0;
      }
    }
    if Same(uc.buf, key, I_TARGET, 0, uc.hi) {
      if uc.typ == ITEM_FLOAT {
        mc.iTarget := uc.lo;
      }
    }
  }

  /** Runs a command that arrived for motor 1. */
  method HandleIncomingCommand(forM1: bool, mc: MotorControl, uc: UnpackContext)
    requires uc.Valid() && uc.code == Ok
    modifies mc, uc
    ensures mc.Settings() == if forM1 then Interpret(old(uc.State().rest), old(mc.Settings())) else old(mc.Settings())
  {
    if !forM1 {
      return;
    }
    hide Parse, Put, LengthSeen, Update;
    RecordAfterNext(uc.State());
    uc.UnpackNext();
    if uc.typ != ITEM_MAP {
      return;
    }
    var numItems := LoopBound(uc.lo);
    var i := 0;
    while i < numItems
      invariant 0 <= i <= numItems && uc.Valid() && (uc.code != Ok ==> uc.typ == NOT_AN_ITEM)
      invariant Interpret(old(uc.State().rest), old(mc.Settings()))
             == if uc.code == Ok then Pairs(uc.State().rest, numItems - i, mc.Settings()) else mc.Settings()
    {
      var go := HandlePair(mc, uc);
      if !go {
        return;
      }
      i := i + 1;
    }
  }
}

/** The receive path: chunks of an MQTT message collected in a fixed buffer and handed to the command interpreter. */
module Comms {
  import opened Bytes
  import opened Format
  import opened Normal
  import opened Tree
  import opened Unpacker
  import opened Stream
  import opened Flat
  import opened Command
  import opened Packer

  const BUFFER_SIZE: nat := 1024

  /** `open`: a command message is being received; `fill`: the bytes of it collected so far. */
  datatype Link = Link(open: bool, fill: seq<byte>, motor: Motor)

  /** The two callbacks of the MQTT client: a message is announced, or a chunk of it arrives. */
  datatype Event = Publish(topic: string, total: nat) | Data(bytes: seq<byte>, last: bool)

  function React(l: Link, e: Event, cmdTopic: string): Link {
    match e
    case Publish(topic, total) => Link(total <= BUFFER_SIZE && topic == cmdTopic, [], l.motor)
    case Data(bytes, last) =>
      if !l.open || |l.fill| + |bytes| > BUFFER_SIZE then l
      else
        var fill := l.fill + bytes;
        if last then Link(false, fill, Interpret(fill, l.motor)) else Link(true, fill, l.motor)
  }

  /** The payload an event hands to the command handler, if any. */
  function Delivered(l: Link, e: Event): seq<seq<byte>> {
    if e.Data? && e.last && l.open && |l.fill| + |e.bytes| <= BUFFER_SIZE then [l.fill + e.bytes] else []
  }

  function ReactAll(l: Link, es: seq<Event>, cmdTopic: string): Link
    decreases es
  {
    if es == [] then l else ReactAll(React(l, es[0], cmdTopic), es[1..], cmdTopic)
  }

  function DeliveredAll(l: Link, es: seq<Event>, cmdTopic: string): seq<seq<byte>>
    decreases es
  {
    if es == [] then []
    else Delivered(l, es[0]) + DeliveredAll(React(l, es[0], cmdTopic), es[1..], cmdTopic)
  }

  /** Handing a list of payloads to the interpreter in turn. */
  function InterpretAll(payloads: seq<seq<byte>>, m: Motor): Motor
    decreases payloads
  {
    if payloads == [] then m else InterpretAll(payloads[1..], Interpret(payloads[0], m))
  }

  /** Over every run of callbacks the fill stays within the buffer, and the motor changes by deliveries alone. */
  lemma {:induction false} RunStaysInBuffer(l: Link, es: seq<Event>, cmdTopic: string)
    requires |l.fill| <= BUFFER_SIZE
    ensures |ReactAll(l, es, cmdTopic).fill| <= BUFFER_SIZE
    ensures ReactAll(l, es, cmdTopic).motor == InterpretAll(DeliveredAll(l, es, cmdTopic), l.motor)
    decreases es
  {
    hide Interpret;
    if es != [] {
      var l1 := React(l, es[0], cmdTopic);
      RunStaysInBuffer(l1, es[1..], cmdTopic);
      var d, ds := Delivered(l, es[0]), DeliveredAll(l1, es[1..], cmdTopic);
      assert d == [] ==> d + ds == ds;
      assert d != [] ==> (d + ds)[1..] == ds;
    }
  }

  // Whole messages.

  /** A message: its topic, and its payload cut into at least one chunk. */
  datatype Message = Message(topic: string, chunks: seq<seq<byte>>)

  function Chunks(chunks: seq<seq<byte>>): seq<Event> {
    if chunks == [] then [] else [Data(chunks[0], |chunks| == 1)] + Chunks(chunks[1..])
  }

  function Payload(m: Message): seq<byte> {
    Flatten(m.chunks)
  }

  function Events(m: Message): seq<Event> {
    [Publish(m.topic, |Payload(m)|)] + Chunks(m.chunks)
  }

  function EventsAll(ms: seq<Message>): seq<Event> {
    if ms == [] then [] else Events(ms[0]) + EventsAll(ms[1..])
  }

  /** The payloads of the messages on the command topic that fit the buffer. */
  function Wanted(ms: seq<Message>, cmdTopic: string): seq<seq<byte>> {
    if ms == [] then []
    else (if ms[0].topic == cmdTopic && |Payload(ms[0])| <= BUFFER_SIZE then [Payload(ms[0])] else [])
         + Wanted(ms[1..], cmdTopic)
  }

  lemma {:induction false} ChunksCollected(l: Link, chunks: seq<seq<byte>>, cmdTopic: string)
    requires l.open && chunks != [] && |l.fill| + |Flatten(chunks)| <= BUFFER_SIZE
    ensures var all := l.fill + Flatten(chunks);
            && DeliveredAll(l, Chunks(chunks), cmdTopic) == [all]
            && ReactAll(l, Chunks(chunks), cmdTopic) == Link(false, all, Interpret(all, l.motor))
    decreases chunks
  {
    hide Interpret;
    var e := Data(chunks[0], |chunks| == 1);
    assert Chunks(chunks)[1..] == Chunks(chunks[1..]);
    assert l.fill + Flatten(chunks) == l.fill + chunks[0] + Flatten(chunks[1..]);
    var l1 := React(l, e, cmdTopic);
    if |chunks| == 1 {
      assert chunks[1..] == [];
      assert l.fill + chunks[0] + [] == l.fill + chunks[0];
    } else {
      ChunksCollected(l1, chunks[1..], cmdTopic);
    }
  }

  lemma {:induction false} RunAppend(l: Link, a: seq<Event>, b: seq<Event>, cmdTopic: string)
    ensures ReactAll(l, a + b, cmdTopic) == ReactAll(ReactAll(l, a, cmdTopic), b, cmdTopic)
    ensures DeliveredAll(l, a + b, cmdTopic)
         == DeliveredAll(l, a, cmdTopic) + DeliveredAll(ReactAll(l, a, cmdTopic), b, cmdTopic)
    decreases a
  {
    hide Interpret;
    if a == [] {
      assert a + b == b;
    } else {
      assert (a + b)[1..] == a[1..] + b;
      RunAppend(React(l, a[0], cmdTopic), a[1..], b, cmdTopic);
    }
  }

  lemma {:induction false} MessageHandled(l: Link, m: Message, cmdTopic: string)
    requires m.chunks != []
    ensures DeliveredAll(l, Events(m), cmdTopic) == Wanted([m], cmdTopic)
    ensures ReactAll(l, Events(m), cmdTopic).motor == InterpretAll(Wanted([m], cmdTopic), l.motor)
    ensures !ReactAll(l, Events(m), cmdTopic).open
  {
    hide Interpret;
    var l1 := React(l, Publish(m.topic, |Payload(m)|), cmdTopic);
    assert Events(m)[1..] == Chunks(m.chunks);
    assert [m][1..] == [];
    if l1.open {
      ChunksCollected(l1, m.chunks, cmdTopic);
      assert [] + Payload(m) == Payload(m);
    } else {
      ChunksAreData(m.chunks);
      DataIgnored(l1, Chunks(m.chunks), cmdTopic);
    }
  }

  /**
   Over every run of whole messages, from whatever state: the handler runs once for each message on the
   command topic that fits the buffer, in order, with exactly the concatenation of its chunks, and never otherwise.
   */
  lemma {:induction false} MessagesHandled(l: Link, ms: seq<Message>, cmdTopic: string)
    requires forall m | m in ms :: m.chunks != []
    ensures DeliveredAll(l, EventsAll(ms), cmdTopic) == Wanted(ms, cmdTopic)
    decreases ms
  {
    hide React, Delivered;
    if ms != [] {
      hide InterpretAll, ReactAll, DeliveredAll;
      MessageHandled(l, ms[0], cmdTopic);
      MessagesHandled(ReactAll(l, Events(ms[0]), cmdTopic), ms[1..], cmdTopic);
      RunAppend(l, Events(ms[0]), EventsAll(ms[1..]), cmdTopic);
      WantedCons(ms, cmdTopic);
    }
  }

  lemma {:induction false} WantedCons(ms: seq<Message>, cmdTopic: string)
    requires ms != []
    ensures Wanted(ms, cmdTopic) == Wanted([ms[0]], cmdTopic) + Wanted(ms[1..], cmdTopic)
  {
    assert [ms[0]][1..] == [];
    assert Wanted([ms[0]], cmdTopic) + [] == Wanted([ms[0]], cmdTopic);
  }

  // Chunks that do not keep to what was announced.

  ghost predicate OnlyData(ds: seq<Event>) {
    forall e | e in ds :: e.Data?
  }

  /**
   What is received of chunks with `room` bytes left: those that fit are joined, those that do not are passed over,
   and the first marked as last that fits completes the message.
   */
  function Received(ds: seq<Event>, room: nat): (r: (seq<byte>, bool))
    requires OnlyData(ds)
    ensures |r.0| <= room
  {
    if ds == [] then ([], false)
    else if |ds[0].bytes| > room then Received(ds[1..], room)
    else if ds[0].last then (ds[0].bytes, true)
    else
      var (bs, done) := Received(ds[1..], room - |ds[0].bytes|);
      (ds[0].bytes + bs, done)
  }

  lemma {:induction false} DataIgnored(l: Link, ds: seq<Event>, cmdTopic: string)
    requires !l.open && OnlyData(ds)
    ensures DeliveredAll(l, ds, cmdTopic) == [] && ReactAll(l, ds, cmdTopic) == l
    decreases ds
  {
    if ds != [] {
      assert ds[0] in ds;
      DataIgnored(l, ds[1..], cmdTopic);
    }
  }

  lemma {:induction false} DataReceived(l: Link, ds: seq<Event>, cmdTopic: string)
    requires l.open && |l.fill| <= BUFFER_SIZE && OnlyData(ds)
    ensures var (bs, done) := Received(ds, BUFFER_SIZE - |l.fill|);
            var all := l.fill + bs;
            && DeliveredAll(l, ds, cmdTopic) == (if done then [all] else [])
            && ReactAll(l, ds, cmdTopic) == if done then Link(false, all, Interpret(all, l.motor)) else l.(fill := all)
    decreases ds
  {
    hide Interpret;
    if ds == [] {
      assert l.fill + [] == l.fill;
    } else {
      var l1 := React(l, ds[0], cmdTopic);
      if !l1.open {
        DataIgnored(l1, ds[1..], cmdTopic);
      } else {
        DataReceived(l1, ds[1..], cmdTopic);
        var bs := Received(ds[1..], BUFFER_SIZE - |l1.fill|).0;
        assert l.fill + ds[0].bytes + bs == l.fill + (ds[0].bytes + bs);
      }
    }
  }

  /**
   Every announcement followed by any chunks, from any state: a message that is not wanted is ignored to its end, and of
   one that is wanted exactly what is received counts.
   */
  lemma {:induction false} AnyChunks(l: Link, topic: string, total: nat, ds: seq<Event>, cmdTopic: string)
    requires OnlyData(ds)
    ensures var es, (bs, done) := [Publish(topic, total)] + ds, Received(ds, BUFFER_SIZE);
            if topic != cmdTopic || total > BUFFER_SIZE then
              DeliveredAll(l, es, cmdTopic) == [] && ReactAll(l, es, cmdTopic) == Link(false, [], l.motor)
            else
              && DeliveredAll(l, es, cmdTopic) == (if done then [bs] else [])
              && ReactAll(l, es, cmdTopic)
                 == if done then Link(false, bs, Interpret(bs, l.motor)) else Link(true, bs, l.motor)
  {
    hide Interpret;
    var es := [Publish(topic, total)] + ds;
    assert es[1..] == ds;
    var l1 := React(l, es[0], cmdTopic);
    if l1.open {
      DataReceived(l1, ds, cmdTopic);
      assert [] + Received(ds, BUFFER_SIZE).0 == Received(ds, BUFFER_SIZE).0;
    } else {
      DataIgnored(l1, ds, cmdTopic);
    }
  }

  /** Whatever length was announced, a wanted message is delivered whole exactly when it fits the buffer. */
  lemma {:induction false} DeliveredWholeIff(l: Link, total: nat, chunks: seq<seq<byte>>, cmdTopic: string)
    requires total <= BUFFER_SIZE && chunks != []
    ensures DeliveredAll(l, [Publish(cmdTopic, total)] + Chunks(chunks), cmdTopic) == [Flatten(chunks)]
       <==> |Flatten(chunks)| <= BUFFER_SIZE
  {
    ChunksAreData(chunks);
    AnyChunks(l, cmdTopic, total, Chunks(chunks), cmdTopic);
    if |Flatten(chunks)| <= BUFFER_SIZE {
      var es := [Publish(cmdTopic, total)] + Chunks(chunks);
      hide Interpret;
      assert es[1..] == Chunks(chunks);
      ChunksCollected(React(l, es[0], cmdTopic), chunks, cmdTopic);
      assert [] + Flatten(chunks) == Flatten(chunks);
    }
  }

  lemma {:induction false} ChunksAreData(chunks: seq<seq<byte>>)
    ensures OnlyData(Chunks(chunks))
  {
    if chunks != [] {
      ChunksAreData(chunks[1..]);
    }
  }

  // The code.

  class CommsContext {
    const cmdTopic: string
    const subBuffer: array<byte>
    const mc: MotorControl
    var subPtr: nat
    var incoming: bool

    ghost predicate Valid()
      reads this
    {
      subBuffer.Length == BUFFER_SIZE && subPtr <= BUFFER_SIZE
    }

    ghost function State(): Link
      requires Valid()
      reads this, subBuffer, mc
    {
      Link(incoming, subBuffer[..subPtr], mc.Settings())
    }

    constructor (topic: string, motor: MotorControl)
      ensures Valid() && mc == motor && cmdTopic == topic && fresh(subBuffer)
      ensures State() == Link(false, [], motor.Settings())
    {
      cmdTopic, mc := topic, motor;
      subBuffer := new byte[BUFFER_SIZE](_ => 0);
      subPtr, incoming := 0, false;
    }

    method ProcessIncomingPublish()
      requires Valid()
      modifies mc
      ensures mc.Settings() == if incoming then Interpret(subBuffer[..subPtr], old(mc.Settings()))
                               else old(mc.Settings())
    {
      var uc := new UnpackContext(subBuffer[..], subPtr);
      assert subBuffer[..][0..subPtr] == subBuffer[..subPtr];
      hide Interpret;
      HandleIncomingCommand(incoming, mc, uc);
    }

    method PubCb(topic: string, total: nat)
      requires Valid()
      modifies this
      ensures Valid() && State() == React(old(State()), Publish(topic, total), cmdTopic)
    {
      incoming, subPtr := false, 0;
      if total > BUFFER_SIZE {
        return;
      }
      if topic == cmdTopic {
        incoming := true;
      }
    }

    method DataCb(data: seq<byte>, last: bool)
      requires Valid()
      modifies this, subBuffer, mc
      ensures Valid() && State() == React(old(State()), Data(data, last), cmdTopic)
    {
      hide Interpret;
      if !incoming {
        return;
      }
      if subPtr + |data| > BUFFER_SIZE {
        return;
      }
      forall i | 0 <= i < |data| {
        subBuffer[subPtr + i] := data[i];
      }
      assert subBuffer[..subPtr + |data|] == old(subBuffer[..subPtr]) + data;
      subPtr := subPtr + |data|;
      if last {
        ProcessIncomingPublish();
        incoming := false;
      }
    }
  }

  // End to end.

  /** Every packed map, nested or not, is interpreted as its flat items two by two. */
  lemma {:induction false} InterpretMap(entries: seq<Value>, m: Motor)
    requires ValidValue(MapOf(entries))
    ensures Interpret(Encode(MapOf(entries)), m) == FoldPairs(FlatAll(entries), LoopBound(|entries| / 2), m)
  {
    hide Parse, Shortest, Repack, ValidCall, InRange, Writable, Update;
    var it := Map(|entries| / 2);
    HeaderWritable(MapOf(entries));
    ReadHeader(it, EncodeAll(entries));
    var parts := EncodeAllSpells(entries);
    PairsFold(parts, [], LoopBound(|entries| / 2), m);
    assert Flatten(parts) + [] == EncodeAll(entries);
    assert (Shortest(it) + EncodeAll(entries))[|Shortest(it)|..] == EncodeAll(entries);
  }

  function Headers(vs: seq<Value>): seq<Item> {
    if vs == [] then [] else [Header(vs[0])] + Headers(vs[1..])
  }

  /** No items follow the header of the value. */
  predicate Childless(v: Value) {
    match v
    case Leaf(_) => true
    case ArrayOf(vs) => vs == []
    case MapOf(vs) => vs == []
  }

  /** As far as there are values, the flat items are their headers if nothing is nested in any value but the last. */
  lemma {:induction false} FlatPrefix(vs: seq<Value>)
    requires forall i :: 0 <= i < |vs| - 1 ==> Childless(vs[i])
    ensures |Headers(vs)| == |vs| && FlatAll(vs)[..|vs|] == Headers(vs)
    decreases vs
  {
    if vs != [] {
      var v, ws := vs[0], vs[1..];
      assert forall i :: 0 <= i < |ws| - 1 ==> ws[i] == vs[i + 1];
      FlatPrefix(ws);
      assert FlatItems(v)[0] == Header(v);
      if ws != [] {
        assert FlatItems(v) == [Header(v)];
      }
    }
  }

  lemma {:induction false} HeadersLength(vs: seq<Value>)
    ensures |Headers(vs)| == |vs|
  {
    if vs != [] {
      HeadersLength(vs[1..]);
    }
  }

  /** For every motor the interpreter does what the map's own entries, taken two by two, would do. */
  ghost predicate ReadPairByPair(entries: seq<Value>)
    requires ValidValue(MapOf(entries))
  {
    forall m :: Interpret(Encode(MapOf(entries)), m) == FoldPairs(Headers(entries), |entries| / 2, m)
  }

  /** The effect of the items that the interpreter walks. */
  function WalkedEffect(entries: seq<Value>): Effect {
    EffectOf(FlatAll(entries)[..2 * LoopBound(|entries| / 2)])
  }

  /** The effect of the map's own entries. */
  function OwnEffect(entries: seq<Value>): Effect {
    EffectOf(Headers(entries))
  }

  lemma InterpretIsEffect(entries: seq<Value>, m: Motor)
    requires ValidValue(MapOf(entries))
    ensures Interpret(Encode(MapOf(entries)), m) == ApplyTo(WalkedEffect(entries), m)
    ensures FoldPairs(Headers(entries), |entries| / 2, m) == ApplyTo(OwnEffect(entries), m)
  {
    hide Interpret, Update, PairEffect, ApplyTo;
    var n := |entries| / 2;
    InterpretMap(entries, m);
    FoldIsEffect(FlatAll(entries), LoopBound(n), m);
    HeadersLength(entries);
    FoldIsEffect(Headers(entries), n, m);
    assert Headers(entries)[..2 * n] == Headers(entries);
  }

  /** A packed map is read pair by pair exactly when the items walked have the effect of its own entries. */
  lemma PairByPairIff(entries: seq<Value>)
    requires ValidValue(MapOf(entries))
    ensures ReadPairByPair(entries) <==> WalkedEffect(entries) == OwnEffect(entries)
  {
    hide Interpret, ValidValue, Encode, FoldPairs, ApplyTo, WalkedEffect, OwnEffect;
    var e, f := WalkedEffect(entries), OwnEffect(entries);
    forall m
      ensures Interpret(Encode(MapOf(entries)), m) == ApplyTo(e, m)
      ensures FoldPairs(Headers(entries), |entries| / 2, m) == ApplyTo(f, m)
    {
      InterpretIsEffect(entries, m);
    }
    SameEffectIff(e, f);
    if e != f {
      var m :| ApplyTo(e, m) != ApplyTo(f, m);
      assert Interpret(Encode(MapOf(entries)), m) != FoldPairs(Headers(entries), |entries| / 2, m);
    }
  }

  /** In particular when nothing is nested in any entry but the last, and the loop bound is not negative. */
  lemma InterpretFlatMap(entries: seq<Value>, m: Motor)
    requires ValidValue(MapOf(entries)) && forall i :: 0 <= i < |entries| - 1 ==> Childless(entries[i])
    ensures Interpret(Encode(MapOf(entries)), m) == FoldPairs(Headers(entries), LoopBound(|entries| / 2), m)
  {
    hide Interpret, ValidValue, Encode, FoldPairs, Childless, EffectOf, ApplyTo, FlatAll, Headers;
    var k := LoopBound(|entries| / 2);
    InterpretMap(entries, m);
    FlatPrefix(entries);
    FoldIsEffect(FlatAll(entries), k, m);
    FoldIsEffect(Headers(entries), k, m);
    assert FlatAll(entries)[..2 * k] == FlatAll(entries)[..|entries|][..2 * k];
  }

  // Messages of one pair.

  /** A map of one pair. */
  function Single(key: seq<byte>, it: Item): Value {
    MapOf([Leaf(Str(key)), Leaf(it)])
  }

  lemma SingleValid(key: seq<byte>, it: Item)
    requires |key| < U32 - 6 && InRange(it) && Writable(it) && !it.Array? && !it.Map?
    ensures ValidValue(Single(key, it))
  {
    assert ValidValue(Leaf(Str(key))) && ValidValue(Leaf(it));
  }

  lemma OnePairMessage(key: seq<byte>, it: Item, m: Motor)
    requires ValidValue(Single(key, it))
    ensures Interpret(Encode(Single(key, it)), m) == Update(m, key, it)
  {
    hide Interpret, ValidValue, Encode, Update;
    InterpretMap([Leaf(Str(key)), Leaf(it)], m);
    FlatPair(Str(key), it, []);
    assert [Leaf(Str(key)), Leaf(it)] + [] == [Leaf(Str(key)), Leaf(it)];
    assert FlatAll([Leaf(Str(key)), Leaf(it)]) == [Str(key), it] + [];
    assert FoldPairs([Str(key), it], 1, m) == FoldPairs([Str(key), it][2..], 0, Update(m, key, it));
  }

  /** A mere beginning of a setting's name, even none of it, takes effect like the name. */
  lemma ShortKeyTakesEffect(key: seq<byte>, b: bool, bits: nat, m: Motor)
    requires bits < U32
    ensures key <= ENABLE ==> && ValidValue(Single(key, Boolean(b)))
                              && Interpret(Encode(Single(key, Boolean(b))), m) == m.(enabled := b)
    ensures key <= I_TARGET ==> && ValidValue(Single(key, Float(bits)))
                                && Interpret(Encode(Single(key, Float(bits))), m) == m.(iTarget := bits)
  {
    MatchesIff(key, ENABLE);
    MatchesIff(key, I_TARGET);
    hide Matches, Interpret, Encode;
    if key <= ENABLE { OnePairMessage(key, Boolean(b), m); }
    if key <= I_TARGET { OnePairMessage(key, Float(bits), m); }
  }

  /** For example the key "e", which names nothing, enables the motor. */
  lemma KeyETakesEffect()
    ensures ValidValue(Single([0x65], Boolean(true)))
    ensures Interpret(Encode(Single([0x65], Boolean(true))), Motor(false, 0)) == Motor(true, 0)
    ensures NamedUpdate(Motor(false, 0), [0x65], Boolean(true)) == Motor(false, 0)
  {
    assert [0x65] <= ENABLE;
    ShortKeyTakesEffect([0x65], true, 0, Motor(false, 0));
  }

  /** A key sent with any value acts on every motor as its own setting only, exactly when it is unambiguous. */
  lemma ActsAsNamedIff(key: seq<byte>)
    requires |key| < U32 - 6
    ensures (forall m, v ::
               ValidValue(Single(key, v)) ==> Interpret(Encode(Single(key, v)), m) == NamedUpdate(m, key, v))
       <==> Unambiguous(key)
  {
    MatchesNameIff(key);
    forall m, v | ValidValue(Single(key, v))
      ensures Interpret(Encode(Single(key, v)), m) == Update(m, key, v)
    {
      OnePairMessage(key, v, m);
    }
    if !Unambiguous(key) {
      SingleValid(key, Boolean(true));
      SingleValid(key, Float(1));
      var m := Motor(false, 0);
      assert Update(m, key, Boolean(true)) != NamedUpdate(m, key, Boolean(true))
          || Update(m, key, Float(1)) != NamedUpdate(m, key, Float(1));
    }
  }

  /** The map {"x": ["enable", true], "y": nil}. */
  function NestedExample(): seq<Value> {
    [Leaf(Str([0x78])), ArrayOf([Leaf(Str(ENABLE)), Leaf(Boolean(true))])] + [Leaf(Str([0x79])), Leaf(Nil)]
  }

  /** With nested values this fails: in the example the elements of the array enable the motor. */
  lemma NestedValueTakesEffect()
    ensures ValidValue(MapOf(NestedExample()))
    ensures Interpret(Encode(MapOf(NestedExample())), Motor(false, 0)) == Motor(true, 0)
    ensures FoldPairs(Headers(NestedExample()), 2, Motor(false, 0)) == Motor(false, 0)
    ensures !ReadPairByPair(NestedExample())
  {
    NestedValid();
    hide Interpret, ValidValue, Encode, FoldPairs, FlatAll, Headers;
    InterpretMap(NestedExample(), Motor(false, 0));
    NestedItems();
    hide NestedExample;
    KeysDiffer();
    FoldTwo(Str([0x78]), Array(2), Str(ENABLE), Boolean(true), [Str([0x79]), Nil], Motor(false, 0));
    FoldTwo(Str([0x78]), Array(2), Str([0x79]), Nil, [], Motor(false, 0));
  }

  lemma NestedValid()
    ensures ValidValue(MapOf(NestedExample())) && |NestedExample()| == 4
  {
    var inner := [Leaf(Str(ENABLE)), Leaf(Boolean(true))];
    assert ValidValue(ArrayOf(inner));
  }

  lemma FoldTwo(a: Item, b: Item, c: Item, d: Item, rest: seq<Item>, m: Motor)
    requires a.Str? && c.Str?
    ensures FoldPairs([a, b, c, d] + rest, 2, m) == Update(Update(m, a.data, b), c.data, d)
  {
    hide Update;
    var items := [a, b, c, d] + rest;
    assert items[2..] == [c, d] + rest;
    assert FoldPairs(items[2..], 1, Update(m, a.data, b)) == Update(Update(m, a.data, b), c.data, d);
  }

  lemma NestedItems()
    ensures FlatAll(NestedExample()) == [Str([0x78]), Array(2), Str(ENABLE), Boolean(true)] + [Str([0x79]), Nil]
    ensures Headers(NestedExample()) == [Str([0x78]), Array(2), Str([0x79]), Nil] + []
  {
    var inner, last := [Leaf(Str(ENABLE)), Leaf(Boolean(true))], [Leaf(Str([0x79])), Leaf(Nil)];
    var tail := [ArrayOf(inner)] + last;
    FlatPair(Str(ENABLE), Boolean(true), []);
    FlatPair(Str([0x79]), Nil, []);
    assert inner == inner + [] && last == last + [];
    assert NestedExample()[1..] == tail && tail[1..] == last;
    assert FlatAll(tail) == FlatItems(ArrayOf(inner)) + FlatAll(last);
    assert Headers(tail) == [Array(2)] + Headers(last);
  }

  /** A setting as a client sends it. */
  datatype Setting = Enable(b: bool) | Target(bits: nat)

  function Entries(ss: seq<Setting>): (r: seq<Value>)
    ensures |r| == 2 * |ss|
  {
    if ss == [] then []
    else
      (match ss[0]
       case Enable(b) => [Leaf(Str(ENABLE)), Leaf(Boolean(b))]
       case Target(bits) => [Leaf(Str(I_TARGET)), Leaf(Float(bits))])
      + Entries(ss[1..])
  }

  function LastEnable(ss: seq<Setting>, before: bool): bool {
    if ss == [] then before
    else if ss[|ss| - 1].Enable? then ss[|ss| - 1].b
    else LastEnable(ss[..|ss| - 1], before)
  }

  function LastTarget(ss: seq<Setting>, before: nat): nat {
    if ss == [] then before
    else if ss[|ss| - 1].Target? then ss[|ss| - 1].bits
    else LastTarget(ss[..|ss| - 1], before)
  }

  lemma {:induction false} LastFromFront(ss: seq<Setting>, b: bool, n: nat)
    requires ss != []
    ensures LastEnable(ss, b) == LastEnable(ss[1..], if ss[0].Enable? then ss[0].b else b)
    ensures LastTarget(ss, n) == LastTarget(ss[1..], if ss[0].Target? then ss[0].bits else n)
    decreases ss
  {
    var k := |ss| - 1;
    if k > 0 {
      LastFromFront(ss[..k], b, n);
      assert ss[1..][..k - 1] == ss[..k][1..];
    }
  }

  lemma KeysDiffer()
    ensures Matches(ENABLE, ENABLE) && !Matches(ENABLE, I_TARGET)
    ensures Matches(I_TARGET, I_TARGET) && !Matches(I_TARGET, ENABLE)
  {
    MatchesIff(ENABLE, ENABLE);
    MatchesIff(ENABLE, I_TARGET);
    MatchesIff(I_TARGET, I_TARGET);
    MatchesIff(I_TARGET, ENABLE);
    assert ENABLE[0] != I_TARGET[0];
  }

  /** Applying settings in order is taking the last of each kind. */
  lemma {:induction false} SettingsFold(ss: seq<Setting>, m: Motor)
    ensures FoldPairs(FlatAll(Entries(ss)), |ss|, m) == Motor(LastEnable(ss, m.enabled), LastTarget(ss, m.iTarget))
    decreases ss
  {
    if ss != [] {
      KeysDiffer();
      hide Matches;
      var key := if ss[0].Enable? then ENABLE else I_TARGET;
      var it := if ss[0].Enable? then Boolean(ss[0].b) else Float(ss[0].bits);
      FlatPair(Str(key), it, Entries(ss[1..]));
      SettingsFold(ss[1..], Update(m, key, it));
      LastFromFront(ss, m.enabled, m.iTarget);
      var items := FlatAll(Entries(ss));
      assert items[2..] == FlatAll(Entries(ss[1..]));
    }
  }

  lemma FlatPair(k: Item, v: Item, vs: seq<Value>)
    ensures FlatAll([Leaf(k), Leaf(v)] + vs) == [k, v] + FlatAll(vs)
  {
    var a := [Leaf(k), Leaf(v)] + vs;
    assert a[1..] == [Leaf(v)] + vs;
    assert a[1..][1..] == vs;
    assert FlatAll(a) == [k] + FlatAll(a[1..]);
    assert FlatAll(a[1..]) == [v] + FlatAll(vs);
  }

  /** A current is 32 bits wide, and so is the number of entries. */
  predicate Sendable(ss: seq<Setting>) {
    |ss| < U32 && forall s | s in ss :: s.Target? ==> s.bits < U32
  }

  /** The settings packed as one map. */
  function Packet(ss: seq<Setting>): seq<byte>
    requires Sendable(ss)
  {
    EntriesValid(ss);
    Encode(MapOf(Entries(ss)))
  }

  /** Any list of settings makes a map that can be packed. */
  lemma {:induction false} EntriesValid(ss: seq<Setting>)
    requires Sendable(ss)
    ensures ValidValue(MapOf(Entries(ss)))
    decreases ss
  {
    if ss != [] {
      EntriesValid(ss[1..]);
    }
  }

  /**
   End to end. Any list of settings packed as one map of at most 1024 bytes, sent on the command topic in any
   chunks to a receiver in any state, leaves the motor with the last value sent of each setting.
   */
  lemma {:induction false} CommandTakesEffect(l: Link, ss: seq<Setting>, chunks: seq<seq<byte>>, cmdTopic: string)
    requires Sendable(ss) && chunks != [] && Flatten(chunks) == Packet(ss) && |Packet(ss)| <= BUFFER_SIZE
    ensures ReactAll(l, Events(Message(cmdTopic, chunks)), cmdTopic).motor
         == Motor(LastEnable(ss, l.motor.enabled), LastTarget(ss, l.motor.iTarget))
  {
    hide Interpret, ValidValue, Encode, FoldPairs;
    EntriesValid(ss);
    MessageHandled(l, Message(cmdTopic, chunks), cmdTopic);
    InterpretMap(Entries(ss), l.motor);
    SettingsFold(ss, l.motor);
    EncodeLength(Entries(ss));
    assert Wanted([Message(cmdTopic, chunks)], cmdTopic)[1..] == [];
  }

  lemma {:induction false} EncodeLength(vs: seq<Value>)
    requires ValidValue(MapOf(vs))
    ensures |Encode(MapOf(vs))| > |vs|
  {
    hide Shortest, Parse, BuildAll, Repack, ValidCall;
    assert forall x | x in vs :: ValidValue(x);
    HeaderWritable(MapOf(vs));
    hide ValidValue, InRange, Writable;
    ReadHeader(Map(|vs| / 2), []);
    BuildEncodeAll(vs, []);
  }

  // The payloads sent back.

  const I_A: seq<byte> := [0x69, 0x5f, 0x61]
  const UPTIME: seq<byte> := [0x75, 0x70, 0x74, 0x69, 0x6d, 0x65]

  lemma SingleLength(key: seq<byte>, it: Item)
    requires |key| < 32 && InRange(it) && (it.Float? || it.PosInt?)
    ensures ValidValue(Single(key, it)) && |Encode(Single(key, it))| <= 11 + |key|
  {
    var a, b := Leaf(Str(key)), Leaf(it);
    var vs := [a, b];
    assert EncodeAll([b]) == Encode(b) + EncodeAll([b][1..]);
    assert vs[1..] == [b];
    assert EncodeAll(vs) == Encode(a) + EncodeAll([b]);
  }

  lemma SinglePacked(s: Packed, key: seq<byte>, it: Item)
    requires |key| < 32 && InRange(it) && (it.Float? || it.PosInt?)
    ensures ValidValue(Single(key, it)) && ValidCall(Repack(it))
    ensures Run(s, PreOrder(Single(key, it))) == Apply(Apply(Apply(s, PackMapSize(1)), PackStr(key)), Repack(it))
  {
    hide Apply;
    var a, b := Leaf(Str(key)), Leaf(it);
    var vs := [a, b];
    assert vs[1..] == [b] && vs[1..][1..] == [];
    assert PreOrder(a) == [Do(PackStr(key))] && PreOrder(b) == [Do(Repack(it))];
    assert PreOrderAll(vs[1..]) == [Do(Repack(it))];
    assert PreOrderAll(vs) == [Do(PackStr(key)), Do(Repack(it))];
    var ops := PreOrder(Single(key, it));
    assert ops == [Do(PackMapSize(1)), Do(PackStr(key)), Do(Repack(it))];
    RunThree(s, ops);
  }

  lemma RunThree(s: Packed, ops: seq<Op>)
    requires ValidOps(ops) && |ops| == 3
    ensures Run(s, ops) == Step(Step(Step(s, ops[0]), ops[1]), ops[2])
  {
    hide Step;
    var s1 := Step(s, ops[0]);
    var s2 := Step(s1, ops[1]);
    assert ops[1..][1..] == ops[2..] && ops[2..][1..] == [];
    assert Run(s, ops) == Run(s1, ops[1..]);
    assert Run(s1, ops[1..]) == Run(s2, ops[2..]);
    assert Run(s2, ops[2..]) == Run(Step(s2, ops[2]), []);
  }

  lemma SinglePayload(key: seq<byte>, it: Item)
    requires |key| < 32 && InRange(it) && (it.Float? || it.PosInt?)
    ensures ValidCall(Repack(it))
    ensures var s := Apply(Apply(Apply(Packed([], BUFFER_SIZE, false, Ok), PackMapSize(1)), PackStr(key)), Repack(it));
            s.code == Ok && Build(s.out) == Some((Single(key, it), |s.out|))
  {
    SinglePacked(Packed([], BUFFER_SIZE, false, Ok), key, it);
    SingleLength(key, it);
    hide Apply, Run, Encode, Build, Parse, ValidCall, Repack, PreOrder, Decode, Next;
    PackUnpackValue(Single(key, it), BUFFER_SIZE, Cell(0, 0, 0));
  }

  /** The telemetry payload decodes to the map of one measured current. */
  method DispatchTelemetry(pc: PackContext, iA: nat)
    requires pc.Valid() && iA < U32 && pc.State() == Packed([], BUFFER_SIZE, false, Ok)
    modifies pc`current, pc`code, pc.buf
    ensures pc.Valid() && pc.code == Ok && Build(pc.State().out) == Some((Single(I_A, Float(iA)), |pc.State().out|))
  {
    SinglePayload(I_A, Float(iA));
    hide Apply, Build, Single;
    pc.PackMapSize(1);
    pc.PackStr(I_A);
    pc.PackFloat(iA);
  }

  /** The heartbeat payload decodes to the map of the uptime. */
  method Heartbeat(pc: PackContext, timeNow: nat)
    requires pc.Valid() && timeNow < U32 && pc.State() == Packed([], BUFFER_SIZE, false, Ok)
    modifies pc`current, pc`code, pc.buf
    ensures pc.Valid() && pc.code == Ok
    ensures Build(pc.State().out) == Some((Single(UPTIME, PosInt(timeNow)), |pc.State().out|))
  {
    SinglePayload(UPTIME, PosInt(timeNow));
    hide Apply, Build, Single;
    pc.PackMapSize(1);
    pc.PackStr(UPTIME);
    pc.PackUnsigned(timeNow);
  }
}

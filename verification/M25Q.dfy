/** The serial flash driver against an abstract device: page programming, erasing, and erase verification. */
module M25Q {
  import opened Words

  type cell = bv8

  const PAGE_SIZE: nat := 256
  const BLOCK_SIZE: nat := 0x1_0000

  // The device.

  /** How the device will treat the next program or erase command: busy polls, error flags, bits left uncleared. */
  datatype Outcome = Outcome(busy: nat, errors: bv8, keep: cell)

  const ALL_ERRORS: bv8 := 0x3a
  const READY_FLAG: bv8 := 0x80
  const SUSPEND_FLAG: bv8 := 0x40

  predicate Failed(o: Outcome) {
    o.errors & ALL_ERRORS != 0
  }

  datatype Block = Block(lo: nat, hi: nat)

  /** `pending`: the block an erase in progress will set to ones; `plan`: the outcomes of the commands to come. */
  datatype Device = Device(mem: seq<cell>, writeEnabled: bool, busy: nat, flags: bv8, pending: Block,
                           plan: seq<Outcome>)

  function OutcomeAt(plan: seq<Outcome>, i: nat): Outcome {
    if i < |plan| then plan[i] else Outcome(0, 0, 0)
  }

  function Rest(plan: seq<Outcome>): seq<Outcome> {
    if plan == [] then [] else plan[1..]
  }

  function WriteEnable(d: Device): Device {
    d.(writeEnabled := true)
  }

  /** The byte of `data` that a page write starting at `off` puts at address `a`: addresses wrap inside the page. */
  function Slot(off: nat, a: nat): nat {
    (a + PAGE_SIZE - off % PAGE_SIZE) % PAGE_SIZE
  }

  function PageWrite(mem: seq<cell>, off: nat, data: seq<cell>, keep: cell): (r: seq<cell>)
    ensures |r| == |mem|
  {
    seq(|mem|, a requires 0 <= a < |mem| =>
      if a / PAGE_SIZE == off / PAGE_SIZE && Slot(off, a) < |data| then mem[a] & (data[Slot(off, a)] | keep)
      else mem[a])
  }

  /** PAGE PROGRAM: ignored unless writing is enabled; clears bits only; a failed one may leave some uncleared. */
  function PageProgram(d: Device, off: nat, data: seq<cell>): Device {
    if !d.writeEnabled then d
    else
      var o := OutcomeAt(d.plan, 0);
      var mem := PageWrite(d.mem, off, data, if Failed(o) then o.keep else 0);
      Device(mem, false, o.busy, o.errors, Block(0, 0), Rest(d.plan))
  }

  /** An erase command for one block: ignored unless writing is enabled; the block is set when the device is done. */
  function Erase(d: Device, b: Block): Device {
    if !d.writeEnabled then d
    else
      var o := OutcomeAt(d.plan, 0);
      Device(d.mem, false, o.busy, o.errors, b, Rest(d.plan))
  }

  function Fill(mem: seq<cell>, b: Block): (r: seq<cell>)
    ensures |r| == |mem|
  {
    seq(|mem|, a requires 0 <= a < |mem| => if b.lo <= a < b.hi then 0xff else mem[a])
  }

  /** SECTOR ERASE works on the 64 kB block that holds the address. */
  function BlockOf(addr: nat): Block {
    Block(addr - addr % BLOCK_SIZE, addr - addr % BLOCK_SIZE + BLOCK_SIZE)
  }

  /** READ FLAG STATUS REGISTER: busy for a while, then ready with the error flags; an erase is then in effect. */
  function ReadFlags(d: Device): (Device, bv8) {
    if d.busy > 0 then (d.(busy := d.busy - 1), 0)
    else
      (d.(mem := if d.flags & ALL_ERRORS == 0 then Fill(d.mem, d.pending) else d.mem, pending := Block(0, 0)),
       READY_FLAG | (d.flags & ALL_ERRORS))
  }

  function ClearFlags(d: Device): Device {
    d.(flags := 0)
  }

  // The driver.

  datatype State = READY | READ | PGM | ERASE

  datatype Error = NO_ERROR | BUSY_ERASING | ERROR_PROGRAM | ERROR_ERASE | ERROR_VERIFY

  /** `bus`: the bus is acquired and not yet released. */
  datatype Driver = Driver(dev: Device, state: State, bus: bool)

  // What programming should amount to.

  /** `mem` with `data` programmed at `off`: bits are cleared where the data has zeros. */
  function Programmed(mem: seq<cell>, off: nat, data: seq<cell>): (r: seq<cell>)
    ensures |r| == |mem|
  {
    seq(|mem|, a requires 0 <= a < |mem| => if off <= a < off + |data| then mem[a] & data[a - off] else mem[a])
  }

  /** A write that stays inside its page does not wrap. */
  lemma PageWriteInPage(mem: seq<cell>, off: nat, data: seq<cell>)
    requires off % PAGE_SIZE + |data| <= PAGE_SIZE && off + |data| <= |mem|
    ensures PageWrite(mem, off, data, 0) == Programmed(mem, off, data)
  {
  }

  /** Consecutive pieces add up. */
  lemma ProgrammedTwice(mem: seq<cell>, off: nat, a: seq<cell>, b: seq<cell>)
    ensures Programmed(Programmed(mem, off, a), off + |a|, b) == Programmed(mem, off, a + b)
  {
  }

  /** An erased range reads back what was programmed. */
  lemma ErasedReadsBack(mem: seq<cell>, off: nat, data: seq<cell>)
    requires off + |data| <= |mem| && forall a :: off <= a < off + |data| ==> mem[a] == 0xff
    ensures Programmed(mem, off, data)[off..off + |data|] == data
  {
  }

  /** The chunk that ends at the page boundary, as the code computes it on 32-bit offsets: the room left in the page. */
  lemma PageMask(x: bv32)
    ensures Number32((x | 0xff) + 1 - x) == PAGE_SIZE - Number32(x) % PAGE_SIZE
  {
    hide Number32, Number16, Number8;
    var room := (x | 0xff) + 1 - x;
    var low := (x & 0xff) as bv8;
    Digits32(x);
    Digits32(room);
    Successor16(0);
    RoomDigits(x);
    Negated8(low);
    LowDigit(Number16((x >> 16) as bv16), Number8(((x >> 8) & 0xff) as bv8), Number8(low));
  }

  lemma LowDigit(a: nat, b: nat, c: nat)
    requires c < PAGE_SIZE
    ensures (a * 0x1_0000 + b * 0x100 + c) % PAGE_SIZE == c
  {
  }

  lemma RoomDigits(x: bv32)
    ensures var room, low := (x | 0xff) + 1 - x, (x & 0xff) as bv8;
            && (room >> 16) as bv16 == 0 && (room & 0xff) as bv8 == 0 - low
            && ((room >> 8) & 0xff) as bv8 == if low == 0 then 1 else 0
  {
  }

  // How many page writes a programming takes, and whether they all succeed.

  function Chunk(off: nat, n: nat): (c: nat)
    ensures c <= n && off % PAGE_SIZE + c <= PAGE_SIZE && (n > 0 ==> c > 0)
  {
    var room := PAGE_SIZE - off % PAGE_SIZE;
    if room > n then n else room
  }

  /** The page writes for `n` bytes at `off` all succeed under the given plan. */
  predicate AllSucceed(off: nat, n: nat, plan: seq<Outcome>)
    decreases n
  {
    n == 0 || (!Failed(OutcomeAt(plan, 0)) && AllSucceed(off + Chunk(off, n), n - Chunk(off, n), Rest(plan)))
  }

  /** The number of pages that `n` bytes at `off` touch. */
  function Pages(off: nat, n: nat): nat {
    if n == 0 then 0 else (off + n - 1) / PAGE_SIZE - off / PAGE_SIZE + 1
  }

  /** There is one write for each page touched, and they all succeed exactly when none of so many outcomes fails. */
  lemma {:induction false} AllSucceedIff(off: nat, n: nat, plan: seq<Outcome>)
    ensures AllSucceed(off, n, plan) <==> forall i :: 0 <= i < Pages(off, n) ==> !Failed(OutcomeAt(plan, i))
    decreases n
  {
    hide Failed;
    if n > 0 {
      var c := Chunk(off, n);
      OnePage(off, n);
      hide Pages, Chunk;
      AllSucceedIff(off + c, n - c, Rest(plan));
      assert forall i :: 0 <= i < Pages(off + c, n - c) ==> OutcomeAt(Rest(plan), i) == OutcomeAt(plan, i + 1);
      assert forall i :: 0 < i < Pages(off, n) ==> OutcomeAt(plan, i) == OutcomeAt(Rest(plan), i - 1);
    }
  }

  lemma OnePage(off: nat, n: nat)
    requires n > 0
    ensures Pages(off, n) == 1 + Pages(off + Chunk(off, n), n - Chunk(off, n))
  {
  }

  /** Nothing outside the range differs, and inside it bits were at most cleared. */
  ghost predicate OnlyCleared(before: seq<cell>, after: seq<cell>, off: nat, n: nat) {
    && |after| == |before|
    && forall a :: 0 <= a < |before| ==>
         (if off <= a < off + n then after[a] & before[a] == after[a] else after[a] == before[a])
  }

  lemma PageWriteOnlyClears(mem: seq<cell>, off: nat, data: seq<cell>, keep: cell)
    requires off % PAGE_SIZE + |data| <= PAGE_SIZE && off + |data| <= |mem|
    ensures OnlyCleared(mem, PageWrite(mem, off, data, keep), off, |data|)
  {
  }

  // Polling.

  /** The device once it is no longer busy. */
  function Settled(d: Device): Device {
    ReadFlags(d.(busy := 0)).0
  }

  lemma StatusBits(flags: bv8)
    ensures var sts := READY_FLAG | (flags & ALL_ERRORS);
            sts & READY_FLAG != 0 && sts & SUSPEND_FLAG == 0 && sts & ALL_ERRORS == flags & ALL_ERRORS
  {
  }

  lemma FillNothing(mem: seq<cell>)
    ensures Fill(mem, Block(0, 0)) == mem
  {
  }

  // Erasing.

  /** The sector size in use, and the block of one sector. */
  function SectorSize(subSectors: bool): nat {
    if subSectors then 0x1000 else 0x1_0000
  }

  function SectorBlock(subSectors: bool, sector: nat): Block {
    Block(sector * SectorSize(subSectors), (sector + 1) * SectorSize(subSectors))
  }

  /** The driver after a call that starts an erase of block `b`. */
  function StartErase(d: Driver, b: Block): Driver {
    if d.state == ERASE then d else Driver(Erase(WriteEnable(d.dev), b), ERASE, false)
  }

  /** The driver and the result after a query; the path for a failed erase does not release the bus. */
  function Query(d: Driver): (Driver, Error) {
    if d.state != ERASE then (d, NO_ERROR)
    else
      var (dev, sts) := ReadFlags(d.dev);
      if sts & READY_FLAG == 0 || sts & SUSPEND_FLAG != 0 then (Driver(dev, ERASE, false), BUSY_ERASING)
      else if sts & ALL_ERRORS != 0 then (Driver(ClearFlags(dev), READY, true), ERROR_ERASE)
      else (Driver(dev, READY, false), NO_ERROR)
  }

  function Queries(d: Driver, n: nat): Driver
    decreases n
  {
    if n == 0 then d else Queries(Query(d).0, n - 1)
  }

  lemma QueryIs(d: Driver)
    requires d.state == ERASE
    ensures d.dev.busy > 0 ==> Query(d) == (Driver(d.dev.(busy := d.dev.busy - 1), ERASE, false), BUSY_ERASING)
    ensures d.dev.busy == 0 && d.dev.flags & ALL_ERRORS == 0
            ==> Query(d) == (Driver(Settled(d.dev), READY, false), NO_ERROR)
    ensures d.dev.busy == 0 && d.dev.flags & ALL_ERRORS != 0
            ==> Query(d) == (Driver(ClearFlags(Settled(d.dev)), READY, true), ERROR_ERASE)
  {
  }

  /** The driver and the result once it has been queried until the device is done. */
  function Waited(d: Driver): (Driver, Error) {
    if d.state != ERASE then (d, NO_ERROR) else Query(d.(dev := d.dev.(busy := 0)))
  }

  lemma WaitedStep(d: Driver)
    requires !d.bus
    ensures Query(d).1 == BUSY_ERASING ==>
              Waited(Query(d).0) == Waited(d) && Query(d).0.state == ERASE && Query(d).0.dev.busy < d.dev.busy
    ensures Query(d).1 != BUSY_ERASING ==> Query(d) == Waited(d)
  {
    if d.state == ERASE {
      QueryIs(d);
    }
  }

  lemma {:induction false} QueriesWhileBusy(d: Driver, n: nat)
    requires d.state == ERASE && !d.bus && n <= d.dev.busy
    ensures Queries(d, n) == d.(dev := d.dev.(busy := d.dev.busy - n))
    decreases n
  {
    if n > 0 {
      QueryIs(d);
      QueriesWhileBusy(Query(d).0, n - 1);
    }
  }

  /**
   A whole erase. Every query before the device is done reports it busy and changes nothing in memory; the next one
   reports success, with exactly the block set to ones, or the failure, with memory as it was and the bus still held.
   */
  lemma EraseCycle(d: Driver, b: Block, n: nat)
    requires d.state == READY && !d.bus
    ensures var o := OutcomeAt(d.dev.plan, 0);
            var q := Queries(StartErase(d, b), n);
            && (n <= o.busy ==> q.state == ERASE && !q.bus && q.dev.mem == d.dev.mem)
            && (n < o.busy ==> Query(q).1 == BUSY_ERASING)
            && (n == o.busy && !Failed(o) ==>
                  && Query(q).1 == NO_ERROR && Query(q).0.state == READY && !Query(q).0.bus
                  && Query(q).0.dev.mem == Fill(d.dev.mem, b))
            && (n == o.busy && Failed(o) ==>
                  && Query(q).1 == ERROR_ERASE && Query(q).0.state == READY && Query(q).0.bus
                  && Query(q).0.dev.mem == d.dev.mem && Query(q).0.dev.flags == 0)
  {
    var o := OutcomeAt(d.dev.plan, 0);
    var e := StartErase(d, b);
    if n <= o.busy {
      QueriesWhileBusy(e, n);
      QueryIs(Queries(e, n));
    }
  }

  /** What a program may call while an erase is in progress: another start, or a query. */
  datatype EraseCall = Start(block: Block) | Ask

  function Call(d: Driver, c: EraseCall): Driver {
    match c
    case Start(b) => StartErase(d, b)
    case Ask => Query(d).0
  }

  function Calls(d: Driver, cs: seq<EraseCall>): Driver {
    if cs == [] then d else Call(Calls(d, cs[..|cs| - 1]), cs[|cs| - 1])
  }

  /** The number of queries among the calls. */
  function Asked(cs: seq<EraseCall>): nat {
    if cs == [] then 0 else Asked(cs[..|cs| - 1]) + if cs[|cs| - 1].Ask? then 1 else 0
  }

  /**
   An erase in progress is not disturbed. Until the device is done, further starts, whatever blocks they name and
   however mixed with queries, leave driver and device as the queries alone would; so the erase ends as it began.
   */
  lemma {:induction false} EraseUndisturbed(d: Driver, b: Block, cs: seq<EraseCall>)
    requires d.state == READY && !d.bus && Asked(cs) <= OutcomeAt(d.dev.plan, 0).busy
    ensures Calls(StartErase(d, b), cs) == Queries(StartErase(d, b), Asked(cs))
    ensures Waited(Calls(StartErase(d, b), cs)) == Waited(StartErase(d, b))
    decreases cs
  {
    hide Query;
    var e := StartErase(d, b);
    QueriesWhileBusy(e, Asked(cs));
    if cs != [] {
      var front := cs[..|cs| - 1];
      EraseUndisturbed(d, b, front);
      QueriesWhileBusy(e, Asked(front));
      QueryIs(Calls(e, front));
    }
  }

  /** The memory after a call that erases a sector and the queries that wait for it. */
  function SectorErased(d: Driver, subSectors: bool, sector: nat): seq<cell> {
    var started := StartErase(d, BlockOf(sector * SectorSize(subSectors)));
    Query(Queries(started, OutcomeAt(d.dev.plan, 0).busy)).0.dev.mem
  }

  ghost predicate ErasesJustSector(d: Driver, subSectors: bool, sector: nat, mem: seq<cell>) {
    SectorErased(d.(dev := d.dev.(mem := mem)), subSectors, sector) == Fill(mem, SectorBlock(subSectors, sector))
  }

  lemma SectorErasedIs(d: Driver, subSectors: bool, sector: nat)
    requires d.state == READY && !d.bus && !Failed(OutcomeAt(d.dev.plan, 0))
    ensures SectorErased(d, subSectors, sector) == Fill(d.dev.mem, BlockOf(sector * SectorSize(subSectors)))
  {
    EraseCycle(d, BlockOf(sector * SectorSize(subSectors)), OutcomeAt(d.dev.plan, 0).busy);
  }

  /** A sub-sector shares its 64 kB block with another unless it is the only one in the last block. */
  predicate AloneInBlock(sectors: nat, sector: nat) {
    sector % 16 == 0 && sector + 1 == sectors
  }

  /**
   The command issued always takes the whole 64 kB block. Whatever the memory held, erasing a sector erases just that
   sector exactly when sectors are that large or the sub-sector is the only one in its block.
   */
  lemma SectorEraseExactIff(d: Driver, subSectors: bool, sectors: nat, sector: nat)
    requires d.state == READY && !d.bus && !Failed(OutcomeAt(d.dev.plan, 0)) && sector < sectors
    ensures (forall mem :: |mem| == sectors * SectorSize(subSectors) ==> ErasesJustSector(d, subSectors, sector, mem))
       <==> !subSectors || AloneInBlock(sectors, sector)
  {
    hide ErasesJustSector, SectorSize, AloneInBlock;
    if !subSectors || AloneInBlock(sectors, sector) {
      forall mem | |mem| == sectors * SectorSize(subSectors) ensures ErasesJustSector(d, subSectors, sector, mem) {
        JustSector(d, subSectors, sectors, sector, mem);
      }
    } else {
      var mem := NotJustSector(d, sectors, sector);
    }
  }

  lemma JustSector(d: Driver, subSectors: bool, sectors: nat, sector: nat, mem: seq<cell>)
    requires d.state == READY && !d.bus && !Failed(OutcomeAt(d.dev.plan, 0))
    requires |mem| == sectors * SectorSize(subSectors) && (!subSectors || AloneInBlock(sectors, sector))
    ensures ErasesJustSector(d, subSectors, sector, mem)
  {
    SectorErasedIs(d.(dev := d.dev.(mem := mem)), subSectors, sector);
    BlockStart(subSectors, sector);
    hide SectorErased, BlockOf;
    if subSectors {
      FillToEnd(mem, SectorBlock(true, sector).lo, SectorBlock(true, sector).hi, BlockOf(sector * 0x1000).hi);
    }
  }

  lemma BlockStart(subSectors: bool, sector: nat)
    requires !subSectors || sector % 16 == 0
    ensures BlockOf(sector * SectorSize(subSectors)) == Block(sector * SectorSize(subSectors),
                                                               sector * SectorSize(subSectors) + BLOCK_SIZE)
  {
    BlockIs(sector * SectorSize(subSectors), if subSectors then sector / 16 else sector, 0);
  }

  lemma BlockIs(addr: nat, q: nat, r: nat)
    requires addr == q * BLOCK_SIZE + r && r < BLOCK_SIZE
    ensures BlockOf(addr) == Block(q * BLOCK_SIZE, (q + 1) * BLOCK_SIZE)
  {
    assert addr / BLOCK_SIZE == q;
  }

  lemma FillToEnd(mem: seq<cell>, lo: nat, hi: nat, hi': nat)
    requires |mem| <= hi && |mem| <= hi'
    ensures Fill(mem, Block(lo, hi)) == Fill(mem, Block(lo, hi'))
  {
  }

  lemma NotJustSector(d: Driver, sectors: nat, sector: nat) returns (mem: seq<cell>)
    requires d.state == READY && !d.bus && !Failed(OutcomeAt(d.dev.plan, 0))
    requires sector < sectors && !AloneInBlock(sectors, sector)
    ensures |mem| == sectors * SectorSize(true) && !ErasesJustSector(d, true, sector, mem)
  {
    hide SectorErased;
    mem := seq(sectors * SectorSize(true), a => 0);
    var other := NeighbourLost(d.(dev := d.dev.(mem := mem)), sectors, sector);
    assert Fill(mem, SectorBlock(true, sector))[SectorBlock(true, other).lo] == 0;
  }

  /** On a device whose size is a power of two, as they all announce, it fails whenever there is another sub-sector. */
  lemma SectorEraseOnDevice(d: Driver, subSectors: bool, sectors: nat, sector: nat)
    requires d.state == READY && !d.bus && !Failed(OutcomeAt(d.dev.plan, 0)) && sector < sectors && PowerOfTwo(sectors)
    ensures (forall mem :: |mem| == sectors * SectorSize(subSectors) ==> ErasesJustSector(d, subSectors, sector, mem))
       <==> !subSectors || sectors == 1
  {
    SectorEraseExactIff(d, subSectors, sectors, sector);
  }

  /** Otherwise a whole neighbouring sub-sector is lost. */
  lemma NeighbourLost(d: Driver, sectors: nat, sector: nat) returns (other: nat)
    requires d.state == READY && !d.bus && !Failed(OutcomeAt(d.dev.plan, 0))
    requires |d.dev.mem| == sectors * SectorSize(true) && sector < sectors && !AloneInBlock(sectors, sector)
    ensures other != sector && other < sectors
    ensures var b, mem := SectorBlock(true, other), SectorErased(d, true, sector);
            b.lo < b.hi <= |mem| == |d.dev.mem| && Erased(mem, b.lo, b.hi)
  {
    other := if sector % 16 == 0 then sector + 1 else sector - 1;
    SectorErasedIs(d, true, sector);
    BlockIs(sector * 0x1000, sector / 16, sector % 16 * 0x1000);
    hide SectorErased, BlockOf;
  }

  /** Data programmed inside a block that was erased first reads back as it was written. */
  lemma EraseProgramRead(mem: seq<cell>, b: Block, off: nat, data: seq<cell>)
    requires b.lo <= off && off + |data| <= b.hi && off + |data| <= |mem|
    ensures Programmed(Fill(mem, b), off, data)[off..off + |data|] == data
  {
  }

  // Verifying.

  predicate PowerOfTwo(k: nat) {
    k == 1 || (k > 1 && k % 2 == 0 && PowerOfTwo(k / 2))
  }

  /** Of two powers of two the larger is a multiple of the smaller. */
  lemma {:induction false} PowersDivide(a: nat, b: nat) returns (q: nat)
    requires PowerOfTwo(a) && PowerOfTwo(b) && a <= b
    ensures b == q * a && a > 0
  {
    if a == 1 {
      q := b;
    } else {
      q := PowersDivide(a / 2, b / 2);
      assert b == 2 * (q * (a / 2)) == q * a;
    }
  }

  lemma ExactQuotient(q: nat, a: nat)
    requires a > 0
    ensures q * a / a == q
  {
    var p := q * a;
    SameQuotient(q - p / a, a, p % a);
  }

  lemma SameQuotient(d: int, a: nat, rest: nat)
    requires d * a == rest < a
    ensures d == 0
  {
  }

  predicate Erased(mem: seq<cell>, lo: nat, hi: nat) {
    forall a :: lo <= a < hi && a < |mem| ==> mem[a] == 0xff
  }

  /** The ranges read to compare `count` buffers from `lo` on with ones: up to and including the first that differs. */
  function Compared(mem: seq<cell>, lo: nat, size: nat, count: nat): seq<Block>
    decreases count
  {
    if count == 0 then []
    else
      var first := Block(lo, lo + size);
      if Erased(mem, lo, lo + size) then [first] + Compared(mem, lo + size, size, count - 1) else [first]
  }

  lemma Regroup(a: seq<Block>, b: seq<Block>, c: seq<Block>)
    ensures a + b + c == a + (b + c)
  {
  }

  lemma ErasedSplit(mem: seq<cell>, a: nat, b: nat, c: nat)
    requires a <= b <= c
    ensures Erased(mem, a, a)
    ensures Erased(mem, a, c) <==> Erased(mem, a, b) && Erased(mem, b, c)
  {
  }

  /** They follow one another from `lo` on, and when all is erased they reach the end of the last buffer. */
  lemma {:induction false} ComparedInOrder(mem: seq<cell>, lo: nat, size: nat, count: nat)
    ensures var r := Compared(mem, lo, size, count);
            && |r| <= count && (count > 0 ==> |r| > 0 && r[0].lo == lo && r[|r| - 1].hi == lo + Span(|r|, size))
            && (forall i :: 0 <= i < |r| ==> r[i].hi == r[i].lo + size)
            && (forall i, j :: 0 <= i < |r| && j == i + 1 < |r| ==> r[j].lo == r[i].hi)
            && (Erased(mem, lo, lo + Span(count, size)) ==> |r| == count)
    decreases count
  {
    SpanStep(0, size);
    hide Span;
    if count > 0 {
      ComparedInOrder(mem, lo + size, size, count - 1);
      SpanStep(count - 1, size);
      SpanStep(|Compared(mem, lo + size, size, count - 1)|, size);
    }
  }

  function Span(n: nat, size: nat): nat {
    n * size
  }

  lemma SpanStep(n: nat, size: nat)
    ensures Span(0, size) == 0 && Span(n + 1, size) == Span(n, size) + size
  {
  }

  // The code.

  /** `trace`: the ranges asked for by the read commands so far. */
  class M25QDriver {
    const subSectors: bool
    const sectors: nat
    var dev: Device
    var state: State
    var bus: bool
    var trace: seq<Block>

    /** The memory has the size the device announced. */
    predicate Valid()
      reads this
    {
      |dev.mem| == sectors * SectorSize(subSectors)
    }

    ghost function View(): Driver
      reads this
    {
      Driver(dev, state, bus)
    }

    /** Waits until the device is ready and reports whether it succeeded. */
    method PollStatus() returns (err: Error)
      modifies this`dev
      ensures old(dev).flags & ALL_ERRORS == 0 ==> err == NO_ERROR && dev == Settled(old(dev))
      ensures old(dev).flags & ALL_ERRORS != 0 ==> err == ERROR_PROGRAM && dev == ClearFlags(Settled(old(dev)))
    {
      StatusBits(dev.flags);
      var (d, sts) := ReadFlags(dev);
      dev := d;
      while sts & READY_FLAG == 0
        invariant if sts & READY_FLAG == 0 then dev.(busy := 0) == old(dev).(busy := 0) && sts == 0
                  else dev == Settled(old(dev)) && sts == READY_FLAG | (old(dev).flags & ALL_ERRORS)
        decreases if sts & READY_FLAG == 0 then dev.busy + 1 else 0
      {
        var (d, sts') := ReadFlags(dev);
        dev, sts := d, sts';
      }
      if sts & ALL_ERRORS != 0 {
        dev := ClearFlags(dev);
        return ERROR_PROGRAM;
      }
      err := NO_ERROR;
    }
  
    /** The bus transaction that reads `n` bytes. */
    method ReadCommand(offset: nat, n: nat) returns (data: seq<cell>)
      requires offset + n <= |dev.mem|
      modifies this`trace
      ensures data == dev.mem[offset..offset + n] && trace == old(trace) + [Block(offset, offset + n)]
    {
      trace := trace + [Block(offset, offset + n)];
      data := dev.mem[offset..offset + n];
    }

    method Read(offset: nat, n: nat) returns (err: Error, data: seq<cell>)
      requires Valid() && n > 0 && offset + n <= |dev.mem| && (state == READY || state == ERASE) && !bus
      modifies this`state, this`bus, this`trace
      ensures View() == old(View())
      ensures state == ERASE ==> err == BUSY_ERASING && data == [] && trace == old(trace)
      ensures state == READY ==> err == NO_ERROR && data == dev.mem[offset..offset + n]
                                 && trace == old(trace) + [Block(offset, offset + n)]
    {
      if state == ERASE {
        return BUSY_ERASING, [];
      }
      bus := true;
      state := READ;
      data := ReadCommand(offset, n);
      state := READY;
      bus := false;
      err := NO_ERROR;
    }

    /**
     Success means memory AND data on the range and nothing else; it happens exactly when every page write succeeds.
     On a failed write the bus is released but the driver is left in the programming state.
     */
    method Program(offset: nat, data: seq<cell>) returns (err: Error)
      requires Valid() && data != [] && offset + |data| <= |dev.mem| && (state == READY || state == ERASE) && !bus
      modifies this`dev, this`state, this`bus
      ensures Valid()
      ensures old(state) == ERASE ==> err == BUSY_ERASING && View() == old(View())
      ensures old(state) == READY ==>
                && !bus && (err == NO_ERROR <==> AllSucceed(offset, |data|, old(dev).plan))
                && (err == NO_ERROR ==> state == READY && dev.mem == Programmed(old(dev).mem, offset, data))
                && (err != NO_ERROR ==> err == ERROR_PROGRAM && state == PGM
                                        && OnlyCleared(old(dev).mem, dev.mem, offset, |data|))
    {
      if state == ERASE {
        return BUSY_ERASING;
      }
      bus := true;
      state := PGM;
      hide Programmed, OnlyCleared, AllSucceed;
      err := ProgramPages(offset, data);
      if err != NO_ERROR {
        bus := false;
        return;
      }
      state := READY;
      bus := false;
    }

    /** Data is programmed page by page. */
    method ProgramPages(offset: nat, data: seq<cell>) returns (err: Error)
      requires offset + |data| <= |dev.mem|
      modifies this`dev
      ensures |dev.mem| == |old(dev).mem| && (err == NO_ERROR || err == ERROR_PROGRAM)
      ensures err == NO_ERROR <==> AllSucceed(offset, |data|, old(dev).plan)
      ensures err == NO_ERROR ==> dev.mem == Programmed(old(dev).mem, offset, data)
      ensures err != NO_ERROR ==> OnlyCleared(old(dev).mem, dev.mem, offset, |data|)
    {
      hide Programmed, OnlyCleared, AllSucceed, Failed;
      var off: nat, pos: nat, n: nat := offset, 0, |data|;
      ghost var mem := dev.mem;
      ProgrammedNothing(mem, offset);
      assert data[..0] == [];
      while n > 0
        invariant pos + n == |data| && off == offset + pos && |dev.mem| == |mem|
        invariant dev.mem == Programmed(mem, offset, data[..pos])
        invariant AllSucceed(offset, |data|, old(dev).plan) == AllSucceed(off, n, dev.plan)
      {
        var chunk := PAGE_SIZE - off % PAGE_SIZE;
        if chunk > n {
          chunk := n;
        }
        assert chunk == Chunk(off, n);
        SucceedStep(off, n, dev.plan);
        hide Chunk;
        err := ProgramChunk(off, data[pos..pos + chunk]);
        if err != NO_ERROR {
          ClearedTwice(mem, offset, data, pos, chunk, dev.mem);
          return;
        }
        ProgrammedTwice(mem, offset, data[..pos], data[pos..pos + chunk]);
        assert data[..pos] + data[pos..pos + chunk] == data[..pos + chunk];
        off := off + chunk;
        pos := pos + chunk;
        n := n - chunk;
      }
      assert data[..pos] == data;
      SucceedNone(off, dev.plan);
      err := NO_ERROR;
    }

    /** Write enable, page program, wait. */
    method ProgramChunk(off: nat, data: seq<cell>) returns (err: Error)
      requires off % PAGE_SIZE + |data| <= PAGE_SIZE && off + |data| <= |dev.mem|
      modifies this`dev
      ensures err == (if Failed(OutcomeAt(old(dev).plan, 0)) then ERROR_PROGRAM else NO_ERROR)
      ensures dev.plan == Rest(old(dev).plan) && |dev.mem| == |old(dev).mem|
      ensures err == NO_ERROR ==> dev.mem == Programmed(old(dev).mem, off, data)
      ensures err != NO_ERROR ==> OnlyCleared(old(dev).mem, dev.mem, off, |data|)
    {
      ghost var o := OutcomeAt(dev.plan, 0);
      PageWriteInPage(dev.mem, off, data);
      PageWriteOnlyClears(dev.mem, off, data, o.keep);
      hide PageWrite, Programmed, OnlyCleared;
      dev := WriteEnable(dev);
      dev := PageProgram(dev, off, data);
      FillNothing(dev.mem);
      hide Fill;
      err := PollStatus();
    }

    method StartEraseAll() returns (err: Error)
      requires Valid() && (state == READY || state == ERASE) && !bus
      modifies this`dev, this`state, this`bus
      ensures Valid() && View() == StartErase(old(View()), Block(0, |old(dev).mem|))
      ensures old(state) == ERASE ==> View() == old(View())
      ensures err == if old(state) == ERASE then BUSY_ERASING else NO_ERROR
    {
      if state == ERASE {
        return BUSY_ERASING;
      }
      bus := true;
      state := ERASE;
      dev := WriteEnable(dev);
      dev := Erase(dev, Block(0, |dev.mem|));
      bus := false;
      err := NO_ERROR;
    }

    method StartEraseSector(sector: nat) returns (err: Error)
      requires Valid() && sector < sectors && (state == READY || state == ERASE) && !bus
      modifies this`dev, this`state, this`bus
      ensures Valid() && View() == StartErase(old(View()), BlockOf(sector * SectorSize(subSectors)))
      ensures old(state) == ERASE ==> View() == old(View())
      ensures err == if old(state) == ERASE then BUSY_ERASING else NO_ERROR
    {
      var offset := sector * SectorSize(subSectors);
      if state == ERASE {
        return BUSY_ERASING;
      }
      bus := true;
      state := ERASE;
      dev := WriteEnable(dev);
      dev := Erase(dev, BlockOf(offset));
      bus := false;
      err := NO_ERROR;
    }

    method QueryErase() returns (err: Error)
      requires Valid() && (state == READY || state == ERASE) && !bus
      modifies this`dev, this`state, this`bus
      ensures Valid() && (View(), err) == Query(old(View()))
    {
      if state == ERASE {
        bus := true;
        var (d, sts) := ReadFlags(dev);
        dev := d;
        if sts & READY_FLAG == 0 || sts & SUSPEND_FLAG != 0 {
          bus := false;
          return BUSY_ERASING;
        }
        state := READY;
        if sts & ALL_ERRORS != 0 {
          dev := ClearFlags(dev);
          return ERROR_ERASE;
        }
        bus := false;
      }
      err := NO_ERROR;
    }

    /** Queries until the erase is no longer in progress. */
    method WaitErase() returns (err: Error)
      requires Valid() && (state == READY || state == ERASE) && !bus
      modifies this`dev, this`state, this`bus
      ensures Valid() && (View(), err) == Waited(old(View()))
    {
      while true
        invariant Valid() && !bus && (state == READY || state == ERASE) && Waited(View()) == Waited(old(View()))
        decreases dev.busy
      {
        ghost var before := View();
        err := QueryErase();
        WaitedStep(before);
        if err != BUSY_ERASING {
          return;
        }
      }
    }

    /** For every power-of-two buffer no larger than the sector, success means that the whole sector is ones. */
    method VerifyErase(sector: nat, bufferSize: nat) returns (err: Error)
      requires Valid() && sector < sectors && (state == READY || state == ERASE) && !bus
      requires PowerOfTwo(bufferSize) && bufferSize <= SectorSize(subSectors)
      modifies this`state, this`bus, this`trace
      ensures View() == old(View())
      ensures state == ERASE ==> err == BUSY_ERASING && trace == old(trace)
      ensures state == READY ==>
                var b := SectorBlock(subSectors, sector);
                && err == (if Erased(dev.mem, b.lo, b.hi) then NO_ERROR else ERROR_VERIFY)
                && trace == old(trace) + Compared(dev.mem, b.lo, bufferSize, SectorSize(subSectors) / bufferSize)
    {
      if state == ERASE {
        return BUSY_ERASING;
      }
      bus := true;
      state := READ;
      SectorInside(subSectors, sector, sectors);
      SectorPower(subSectors);
      ghost var count := PowersDivide(bufferSize, SectorSize(subSectors));
      ExactQuotient(count, bufferSize);
      hide PowerOfTwo, Compared, Erased;
      var clean := CompareSector(sector * SectorSize(subSectors), SectorSize(subSectors), bufferSize, count);
      state := READY;
      bus := false;
      err := if clean then NO_ERROR else ERROR_VERIFY;
    }

    /** Compares `size` bytes with ones, in `count` whole buffers; it stops at the first buffer that differs. */
    method CompareSector(start: nat, size: nat, bufferSize: nat, ghost count: nat) returns (clean: bool)
      requires start + size <= |dev.mem| && size == Span(count, bufferSize) && bufferSize > 0
      modifies this`trace
      ensures clean <==> Erased(dev.mem, start, start + size)
      ensures trace == old(trace) + Compared(dev.mem, start, bufferSize, count)
    {
      SpanStep(0, bufferSize);
      ErasedSplit(dev.mem, start, start, start);
      hide Span, Erased;
      var offset, n := start, size;
      ghost var left: nat, before, whole := count, trace, Compared(dev.mem, start, bufferSize, count);
      ghost var done: seq<Block> := [];
      while n > 0
        invariant n == Span(left, bufferSize) && offset + n == start + size && start <= offset
        invariant Erased(dev.mem, start, offset)
        invariant trace == before + done && whole == done + Compared(dev.mem, offset, bufferSize, left)
        decreases n
      {
        SpanStep(left - 1, bufferSize);
        ErasedSplit(dev.mem, start, offset, offset + bufferSize);
        ErasedSplit(dev.mem, start, offset + bufferSize, start + size);
        ghost var next := [Block(offset, offset + bufferSize)];
        clean := CompareBuffer(offset, bufferSize);
        Regroup(before, done, next);
        if !clean {
          return;
        }
        Regroup(done, next, Compared(dev.mem, offset + bufferSize, bufferSize, left - 1));
        offset := offset + bufferSize;
        n := n - bufferSize;
        left, done := left - 1, done + next;
      }
      clean := true;
    }

    /** Reads one buffer and compares it with ones. */
    method CompareBuffer(offset: nat, size: nat) returns (clean: bool)
      requires offset + size <= |dev.mem|
      modifies this`trace
      ensures clean <==> Erased(dev.mem, offset, offset + size)
      ensures trace == old(trace) + [Block(offset, offset + size)]
    {
      var cmpbuf := ReadCommand(offset, size);
      var p := 0;
      while p < size
        invariant p <= size && Erased(dev.mem, offset, offset + p)
      {
        if cmpbuf[p] != 0xff {
          assert dev.mem[offset + p] != 0xff;
          return false;
        }
        p := p + 1;
      }
      clean := true;
    }
  }

  /**
   What a program does to store data: erase the sector and wait, verify it, program, verify again, read back. The data
   comes back exactly when the device carries out the erase and every page write.
   */
  method Rewrite(drv: M25QDriver, sector: nat, bufferSize: nat, offset: nat, data: seq<cell>)
    returns (err: Error, again: Error, back: seq<cell>)
    requires drv.Valid() && drv.state == READY && !drv.bus && sector < drv.sectors && data != []
    requires PowerOfTwo(bufferSize) && bufferSize <= SectorSize(drv.subSectors)
    requires var b := SectorBlock(drv.subSectors, sector); b.lo <= offset && offset + |data| <= b.hi
    modifies drv
    ensures drv.Valid()
    ensures var d := old(drv.dev);
            var erased := Fill(d.mem, BlockOf(sector * SectorSize(drv.subSectors)));
            if Failed(OutcomeAt(d.plan, 0)) then err == ERROR_ERASE && drv.dev.mem == d.mem && drv.bus
            else if !AllSucceed(offset, |data|, Rest(d.plan)) then
              err == ERROR_PROGRAM && OnlyCleared(erased, drv.dev.mem, offset, |data|) && drv.state == PGM && !drv.bus
            else
              && err == NO_ERROR && back == data && drv.state == READY && !drv.bus
              && again == (if Erased(data, 0, |data|) then NO_ERROR else ERROR_VERIFY)
              && drv.dev.mem == Programmed(erased, offset, data)
  {
    hide AllSucceed, Programmed, OnlyCleared, Fill, Compared, PowerOfTwo;
    ghost var mem, block := drv.dev.mem, BlockOf(sector * SectorSize(drv.subSectors));
    again, back := NO_ERROR, [];
    var _ := drv.StartEraseSector(sector);
    err := drv.WaitErase();
    if err != NO_ERROR {
      return;
    }
    assert drv.dev.mem == Fill(mem, block);
    SectorOfFilled(mem, drv.subSectors, sector);
    err := drv.VerifyErase(sector, bufferSize);
    assert err == NO_ERROR;
    SectorInside(drv.subSectors, sector, drv.sectors);
    err := drv.Program(offset, data);
    if err != NO_ERROR {
      return;
    }
    EraseProgramRead(mem, block, offset, data);
    again := drv.VerifyErase(sector, bufferSize);
    SectorOfProgrammed(Fill(mem, block), SectorBlock(drv.subSectors, sector), offset, data);
    err, back := drv.Read(offset, |data|);
  }

  lemma SectorOfFilled(mem: seq<cell>, subSectors: bool, sector: nat)
    ensures var b, s := BlockOf(sector * SectorSize(subSectors)), SectorBlock(subSectors, sector);
            b.lo <= s.lo < s.hi <= b.hi && Erased(Fill(mem, b), s.lo, s.hi)
  {
    if subSectors {
      BlockIs(sector * 0x1000, sector / 16, sector % 16 * 0x1000);
    } else {
      BlockIs(sector * BLOCK_SIZE, sector, 0);
    }
    hide BlockOf;
  }

  lemma SectorOfProgrammed(mem: seq<cell>, b: Block, off: nat, data: seq<cell>)
    requires Erased(mem, b.lo, b.hi) && b.lo <= off && off + |data| <= b.hi && off + |data| <= |mem|
    ensures Erased(Programmed(mem, off, data), b.lo, b.hi) <==> Erased(data, 0, |data|)
  {
    var after := Programmed(mem, off, data);
    ErasedReadsBack(mem, off, data);
    assert forall a :: 0 <= a < |data| ==> after[off + a] == data[a];
  }

  lemma SucceedStep(off: nat, n: nat, plan: seq<Outcome>)
    requires n > 0
    ensures AllSucceed(off, n, plan)
       <==> !Failed(OutcomeAt(plan, 0)) && AllSucceed(off + Chunk(off, n), n - Chunk(off, n), Rest(plan))
  {
  }

  lemma SucceedNone(off: nat, plan: seq<Outcome>)
    ensures AllSucceed(off, 0, plan)
  {
  }

  lemma ProgrammedNothing(mem: seq<cell>, off: nat)
    ensures Programmed(mem, off, []) == mem
  {
  }

  /** A programmed prefix followed by a failed piece has still only cleared bits of the range. */
  lemma ClearedTwice(mem: seq<cell>, off: nat, data: seq<cell>, pos: nat, n: nat, after: seq<cell>)
    requires pos + n <= |data| && OnlyCleared(Programmed(mem, off, data[..pos]), after, off + pos, n)
    ensures OnlyCleared(mem, after, off, |data|)
  {
  }

  lemma SectorInside(subSectors: bool, sector: nat, sectors: nat)
    requires sector < sectors
    ensures SectorBlock(subSectors, sector).hi <= sectors * SectorSize(subSectors)
  {
  }

  lemma SectorPower(subSectors: bool)
    ensures PowerOfTwo(SectorSize(subSectors))
  {
    assert PowerOfTwo(0x10);
    assert PowerOfTwo(0x100);
    assert PowerOfTwo(0x1000);
    assert PowerOfTwo(0x4000);
  }
}

/** How far a write gets, from the disk alone: every block on the way from an inode to the blocks written takes one
    free zone if it is not there yet, and the write is complete if and only if there are enough. */
module DiskSpace {
  import opened Basics
  import opened Zones
  import opened ZoneOwnership
  import opened FileContents

  /** A zone whose bit is clear. */
  ghost predicate IsFree(d: Disk, z: nat)
    requires MapEnds(d)
  {
    d.first <= z < d.nzones && !d.zmap[z - d.first + 1]
  }

  ghost function FreeSet(d: Disk): (r: set<nat>)
    requires MapEnds(d)
    ensures forall z :: z in r <==> IsFree(d, z)
  {
    set z: nat | z < d.nzones && IsFree(d, z)
  }

  ghost function Room(d: Disk): nat
    requires MapEnds(d)
  {
    |FreeSet(d)|
  }

  /** The places on the way to a place, itself included. */
  function Way(s: Slot): set<Slot> { if s.Top? then {s} else Way(s.parent) + {s} }

  /** The places on the way to the blocks lo .. hi - 1 of file f. */
  function Ways(f: nat, lo: nat, hi: nat): set<Slot>
    requires hi <= BIGGEST
    decreases hi - lo
  {
    if lo >= hi then {} else Way(SlotOf(f, lo)) + Ways(f, lo + 1, hi)
  }

  /** Those of the places that have no zone. */
  ghost function Lacking(d: Disk, places: set<Slot>): (r: set<Slot>)
    requires Shape(d)
    ensures forall s :: s in r <==> s in places && IsSlot(d, s) && ZoneAt(d, s) == 0
  {
    set s | s in places && IsSlot(d, s) && ZoneAt(d, s) == 0
  }

  /** The zones that writing blocks lo .. hi - 1 takes. */
  ghost function Missing(d: Disk, f: nat, lo: nat, hi: nat): nat
    requires Shape(d) && hi <= BIGGEST
  {
    |Lacking(d, Ways(f, lo, hi))|
  }

  /** The places have zones now, no others have been given any, and each that lacked one has cost one. */
  ghost predicate Filled(d: Disk, d': Disk, places: set<Slot>) {
    && Inv(d) && Inv(d')
    && (forall t :: IsSlot(d', t) <==> IsSlot(d, t))
    && (forall t :: IsSlot(d, t) ==> (ZoneAt(d', t) == 0 <==> ZoneAt(d, t) == 0 && t !in places))
    && Room(d') + |Lacking(d, places)| == Room(d)
  }

  // ---- One zone ----

  lemma NoRoom(d: Disk)
    requires Inv(d)
    ensures NewBlock(d).1 == 0 <==> Room(d) == 0
  {
    hide IsSlot, ZoneAt;
    NewBlockIs(d);
    var z := NewBlock(d).1;
    if z == 0 {
      forall y: nat | d.first <= y < d.nzones ensures !IsFree(d, y) { assert Owned(d, y); }
      assert FreeSet(d) == {};
    } else {
      assert z in FreeSet(d);
    }
  }

  lemma GivenRoom(d: Disk, s: Slot)
    requires Inv(d) && IsSlot(d, s) && ParentThere(d, s) && ZoneAt(d, s) == 0 && NewBlock(d).1 != 0
    ensures Inv(Given(d, s)) && Room(Given(d, s)) == Room(d) - 1
  {
    hide Inv, Given, NewBlock, ZoneAt, IsSlot;
    GivenKeeps(d, s);
    GivenShape(d, s);
    NewBlockIs(d);
    InvShape(d);
    InvShape(Given(d, s));
    var z := NewBlock(d).1;
    NewZoneFree(d);
    assert FreeSet(Given(d, s)) == FreeSet(d) - {z};
  }

  lemma NewZoneFree(d: Disk)
    requires Inv(d) && NewBlock(d).1 != 0
    ensures NewBlock(d).1 in FreeSet(d)
  {
    NewBlockIs(d);
  }

  lemma GivenFills(d: Disk, s: Slot)
    requires Inv(d) && IsSlot(d, s) && ParentThere(d, s) && ZoneAt(d, s) == 0 && NewBlock(d).1 != 0
    ensures Filled(d, Given(d, s), {s})
  {
    hide Inv, Given, NewBlock, ZoneAt, IsSlot;
    InvShape(d);
    GivenKeeps(d, s);
    GivenShape(d, s);
    GivenRoom(d, s);
    forall t ensures IsSlot(Given(d, s), t) <==> IsSlot(d, t) { SameSlots(d, Given(d, s), t); }
    forall t | IsSlot(d, t) ensures ZoneAt(Given(d, s), t) == if t == s then NewBlock(d).1 else ZoneAt(d, t) {
      GivenZones(d, s, t);
    }
    assert Lacking(d, {s}) == {s};
  }

  // ---- One block ----

  lemma FilledNothing(d: Disk, places: set<Slot>)
    requires Inv(d) && forall t :: t in places && IsSlot(d, t) ==> ZoneAt(d, t) != 0
    ensures Filled(d, d, places)
  {
    hide Inv, ZoneAt, IsSlot;
    InvShape(d);
    assert Lacking(d, places) == {};
  }

  lemma FilledTwice(d: Disk, d1: Disk, d2: Disk, a: set<Slot>, b: set<Slot>)
    requires Filled(d, d1, a) && Filled(d1, d2, b)
    ensures Filled(d, d2, a + b)
  {
    hide Inv, ZoneAt, IsSlot, Room;
    FilledCosts(d, d1, a, b);
  }

  /** What is lacking afterwards is what was lacking elsewhere. */
  lemma FilledCosts(d: Disk, d1: Disk, a: set<Slot>, b: set<Slot>)
    requires Filled(d, d1, a)
    ensures Shape(d) && Shape(d1) && |Lacking(d, a + b)| == |Lacking(d, a)| + |Lacking(d1, b)|
  {
    hide Inv, ZoneAt, IsSlot, Room;
    InvShape(d);
    InvShape(d1);
    assert Lacking(d, a + b) == Lacking(d, a) + Lacking(d1, b);
    assert Lacking(d, a) !! Lacking(d1, b);
  }

  lemma {:induction false} WayBelow(s: Slot, t: Slot)
    requires t in Way(s)
    ensures t == s || (t < s)
    decreases s
  {
    if s.Sub? && t != s { WayBelow(s.parent, t); }
  }

  /** A place whose way lacks a table has no zone. */
  lemma WayLacks(d: Disk, p: Slot, s: Slot)
    requires Inv(d) && IsSlot(d, s) && s.Sub? && s.parent == p
    ensures Lacking(d, Way(s)) == Lacking(d, Way(p)) + (if ZoneAt(d, s) == 0 then {s} else {}) && s !in Way(p)
  {
    hide Inv, ZoneAt, IsSlot;
    InvShape(d);
    if s in Way(p) { WayBelow(p, s); }
  }

  /** _bmap with create: it finds or makes the block if and only if there are zones for all that is missing on the
      way. */
  lemma {:induction false} EnsureFills(d: Disk, s: Slot)
    requires Inv(d) && IsSlot(d, s)
    ensures var (d', z) := Ensure(d, s, true);
            (z != 0 <==> |Lacking(d, Way(s))| <= Room(d)) && (z != 0 ==> Filled(d, d', Way(s)))
    decreases s
  {
    hide Inv, Filled, NewBlock, Room, Lacking;
    InvShape(d);
    match s
    case Top(f, i) =>
      if ZoneAt(d, s) == 0 {
        OneZone(d, s);
        LackingOne(d, s);
      } else {
        FilledNothing(d, Way(s));
        LackingNone(d, Way(s));
      }
    case Sub(p, i) =>
      EnsureFills(d, p);
      EnsureKeeps(d, p, true);
      WayLacks(d, p, s);
      var (d1, t) := Ensure(d, p, true);
      GrownInv(d, d1, p, s);
      InvShape(d1);
      ZoneRange(d1, p);
      if t == 0 {
        MoreLacks(d, Way(p), Way(s));
      } else {
        FilledFacts(d, d1, Way(p), s);
        FilledCosts(d, d1, Way(p), {s});
        if ZoneAt(d1, s) == 0 {
          OneZone(d1, s);
          LackingOne(d1, s);
        } else {
          FilledNothing(d1, {s});
          LackingNone(d1, {s});
        }
        if Ensure(d, s, true).1 != 0 { FilledTwice(d, d1, Ensure(d, s, true).0, Way(p), {s}); }
      }
  }

  lemma FilledFacts(d: Disk, d1: Disk, a: set<Slot>, s: Slot)
    requires Filled(d, d1, a) && IsSlot(d, s)
    ensures Inv(d1) && IsSlot(d1, s) && Room(d1) + |Lacking(d, a)| == Room(d)
    ensures ZoneAt(d1, s) == 0 <==> ZoneAt(d, s) == 0 && s !in a
  {
    hide Inv, ZoneAt, IsSlot, Room;
    InvShape(d);
    InvShape(d1);
  }

  lemma MoreLacks(d: Disk, a: set<Slot>, b: set<Slot>)
    requires Shape(d) && a <= b
    ensures |Lacking(d, a)| <= |Lacking(d, b)|
  {
    SubsetSize(Lacking(d, a), Lacking(d, b));
  }

  lemma LackingOne(d: Disk, s: Slot)
    requires Shape(d) && IsSlot(d, s) && ZoneAt(d, s) == 0
    ensures |Lacking(d, {s})| == 1
  {
    assert Lacking(d, {s}) == {s};
  }

  lemma LackingNone(d: Disk, a: set<Slot>)
    requires Shape(d) && forall t :: t in a && IsSlot(d, t) ==> ZoneAt(d, t) != 0
    ensures |Lacking(d, a)| == 0
  {
    assert Lacking(d, a) == {};
  }

  /** The last step of _bmap: a zone for a place whose parent is there. */
  lemma OneZone(d: Disk, s: Slot)
    requires Inv(d) && IsSlot(d, s) && ParentThere(d, s) && ZoneAt(d, s) == 0
    ensures s.Sub? ==> ZoneAt(d, s.parent) < d.nzones
    ensures NewBlock(d).1 != 0 <==> Room(d) >= 1
    ensures var (d', z) := if s.Top? then Ensure(d, s, true) else Entry(d, ZoneAt(d, s.parent), s.i, true);
            (z != 0 <==> NewBlock(d).1 != 0) && (z != 0 ==> Filled(d, d', {s}))
  {
    hide Inv, Filled, NewBlock, Room;
    InvShape(d);
    NoRoom(d);
    NewBlockIs(d);
    if s.Sub? { ZoneRange(d, s.parent); }
    if NewBlock(d).1 != 0 { GivenFills(d, s); }
  }

  // ---- A write ----

  lemma WriteBlockFills(d: Disk, f: nat, s: Slot, pos: nat, chunk: seq<nat>)
    requires Inv(d) && IsSlot(d, s) && Level(s) == 0 && ZoneAt(d, s) != 0 && f < |d.inodes|
    requires Bytes(chunk) && pos % BLOCK_SIZE + |chunk| <= BLOCK_SIZE
    ensures ZoneAt(d, s) < d.nzones && Filled(d, WriteBlock(d, f, ZoneAt(d, s), pos, chunk), {})
  {
    hide Inv, ZoneAt, Owned, IsSlot;
    InvShape(d);
    ZoneRange(d, s);
    var d' := WriteBlock(d, f, ZoneAt(d, s), pos, chunk);
    WriteBlockKeeps(d, f, s, pos, chunk);
    InvShape(d');
    forall t ensures IsSlot(d', t) == IsSlot(d, t) { SameSlots(d, d', t); }
    forall t | IsSlot(d, t) ensures ZoneAt(d', t) == ZoneAt(d, t) { WriteBlockZones(d, f, s, pos, chunk, t); }
    assert FreeSet(d') == FreeSet(d);
    assert Lacking(d, {}) == {};
  }

  /** The block after the last one that holds a byte below `end`. */
  function BlocksTo(end: nat): nat { (end + (BLOCK_SIZE - 1)) / BLOCK_SIZE }

  /** One turn of file_write: its block is made exactly if there are zones for it. */
  lemma TurnFills(d: Disk, f: nat, pos: nat, data: seq<nat>) returns (d2: Disk, c: nat)
    requires Inv(d) && IsFile(d, f) && Bytes(data) && pos + |data| <= LIMIT && data != []
    ensures c <= |data| && Inv(d2) && IsFile(d2, f)
    ensures c > 0 <==> |Lacking(d, Way(SlotOf(f, pos / BLOCK_SIZE)))| <= Room(d)
    ensures c == 0 ==> Write(d, f, pos, data) == Done((d2, 0))
    ensures c > 0 ==> c == Min(BLOCK_SIZE - pos % BLOCK_SIZE, |data|)
    ensures c > 0 ==> Write(d, f, pos, data) == Shifted(Write(d2, f, pos + c, data[c..]), c)
    ensures c > 0 ==> Filled(d, d2, Way(SlotOf(f, pos / BLOCK_SIZE)))
  {
    hide Inv, Filled, Ensure, Grown, WriteBlock, IsSlot, ZoneAt, Write, Lacking, Room;
    InvShape(d);
    WriteSteps(d, f, pos, data);
    var s := SlotOf(f, pos / BLOCK_SIZE);
    SlotOfIs(d, f, pos / BLOCK_SIZE);
    EnsureKeeps(d, s, true);
    EnsureFills(d, s);
    var (d1, z) := Ensure(d, s, true);
    GrownSizes(d, d1, s);
    InvShape(d1);
    SlotOfIs(d1, f, pos / BLOCK_SIZE);
    ZoneRange(d1, s);
    if z == 0 {
      d2, c := d1, 0;
    } else {
      c := Min(BLOCK_SIZE - pos % BLOCK_SIZE, |data|);
      d2 := WriteBlock(d1, f, z, pos, data[..c]);
      BytesPart(data, c);
      WriteBlockFills(d1, f, s, pos, data[..c]);
      FilledTwice(d, d1, d2, Way(s), {});
      assert Way(s) + {} == Way(s);
      FilledFile(d1, f, z, pos, data[..c]);
      FilledInv(d, d2, Way(s));
    }
  }

  lemma FilledInv(d: Disk, d': Disk, a: set<Slot>)
    requires Filled(d, d', a)
    ensures Inv(d')
  {
  }

  lemma FilledFile(d: Disk, f: nat, z: nat, pos: nat, chunk: seq<nat>)
    requires Shape(d) && IsFile(d, f) && z < d.nzones && Bytes(chunk) && pos % BLOCK_SIZE + |chunk| <= BLOCK_SIZE
    ensures IsFile(WriteBlock(d, f, z, pos, chunk), f)
  {
    PlainStays(d, f, z, pos, chunk);
  }

  /** Blocks 0 .. BIGGEST - 1 are all a file can have. */
  lemma BlocksFit(pos: nat, n: nat)
    requires pos + n <= LIMIT && n > 0
    ensures pos / BLOCK_SIZE < BlocksTo(pos + n) <= BIGGEST
    ensures BLOCK_SIZE - pos % BLOCK_SIZE >= n ==> BlocksTo(pos + n) == pos / BLOCK_SIZE + 1
    ensures (pos + (BLOCK_SIZE - pos % BLOCK_SIZE)) / BLOCK_SIZE == pos / BLOCK_SIZE + 1
  {
    assert pos == pos / BLOCK_SIZE * BLOCK_SIZE + pos % BLOCK_SIZE;
  }

  lemma {:induction false} WholeWrite(d: Disk, f: nat, pos: nat, data: seq<nat>)
    requires Inv(d) && IsFile(d, f) && Bytes(data) && pos + |data| <= LIMIT && data != []
    ensures Write(d, f, pos, data).Done? && BlocksTo(pos + |data|) <= BIGGEST
    ensures Write(d, f, pos, data).value.1 == |data|
            <==> Missing(d, f, pos / BLOCK_SIZE, BlocksTo(pos + |data|)) <= Room(d)
    decreases |data|
  {
    hide Inv, Filled, Write, Lacking, Room, Shape, SlotOf;
    InvShape(d);
    WriteWithin(d, f, pos, data);
    BlocksFit(pos, |data|);
    var (lo, hi) := (pos / BLOCK_SIZE, BlocksTo(pos + |data|));
    var (a, b) := (Way(SlotOf(f, lo)), Ways(f, lo + 1, hi));
    var d2, c := TurnFills(d, f, pos, data);
    if c == 0 {
      MoreLacks(d, a, a + b);
    } else {
      InvShape(d2);
      FilledCosts(d, d2, a, b);
      FilledRoom(d, d2, a);
      if c == |data| {
        WriteNothing(d2, f, pos + c);
        assert data[c..] == [];
        assert b == {};
        LackingNone(d2, b);
      } else {
        BytesPart(data, c);
        WholeWrite(d2, f, pos + c, data[c..]);
      }
    }
  }

  lemma FilledRoom(d: Disk, d': Disk, a: set<Slot>)
    requires Filled(d, d', a)
    ensures Shape(d) && MapEnds(d) && MapEnds(d') && Room(d') + |Lacking(d, a)| == Room(d)
  {
  }

  /** A write is complete if and only if it stays within the largest file and there are free zones for all the blocks
      that are missing on the way to those it writes, tables included. */
  lemma WriteCompletes(d: Disk, f: nat, pos: nat, data: seq<nat>)
    requires Inv(d) && IsFile(d, f) && Bytes(data) && data != []
    ensures pos + |data| <= LIMIT ==> BlocksTo(pos + |data|) <= BIGGEST
    ensures Write(d, f, pos, data).Done? && Write(d, f, pos, data).value.1 == |data| <==>
              pos + |data| <= LIMIT && Missing(d, f, pos / BLOCK_SIZE, BlocksTo(pos + |data|)) <= Room(d)
  {
    hide Inv, Write, Missing, Room;
    InvShape(d);
    if pos + |data| <= LIMIT {
      WholeWrite(d, f, pos, data);
    } else if pos < LIMIT {
      WriteWithin(d, f, pos, data[..LIMIT - pos]);
      WriteAcross(d, f, pos, data);
    } else {
      WriteBeyond(d, f, pos, data);
    }
  }

  /** file_write panics if and only if it has data for a position past the largest file, and there are free zones for
      all that is missing on the way to every block before that position. */
  lemma WritePanics(d: Disk, f: nat, pos: nat, data: seq<nat>)
    requires Inv(d) && IsFile(d, f) && Bytes(data)
    ensures Write(d, f, pos, data).Panic? <==>
            && data != [] && pos + |data| > LIMIT
            && (pos < LIMIT ==> Missing(d, f, pos / BLOCK_SIZE, BIGGEST) <= Room(d))
  {
    hide Inv, Write, Missing, Room;
    InvShape(d);
    if pos + |data| <= LIMIT {
      WriteWithin(d, f, pos, data);
    } else if pos < LIMIT {
      BytesPart(data, LIMIT - pos);
      WholeWrite(d, f, pos, data[..LIMIT - pos]);
      WriteAcross(d, f, pos, data);
      assert BlocksTo(LIMIT) == BIGGEST;
    } else if data == [] {
      WriteNothing(d, f, pos);
    } else {
      WriteBeyond(d, f, pos, data);
    }
  }
}

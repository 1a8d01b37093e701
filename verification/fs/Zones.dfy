/** Disk blocks of one device: the zone map, the 7 / 512 / 512*512 index tree of
    an inode, and reading, writing and truncating through it
    (linux-0.11/fs/bitmap.c, inode.c, truncate.c, file_dev.c). */
module Zones {

  import opened Basics

  const BLOCK_SIZE := 1024
  const ENTRIES := 512
  const BIGGEST := 7 + 512 + 512 * 512    // blocks of a file

  type Block = seq<nat>    // bytes

  /** struct m_inode, as far as its zones go. plain: a regular file or a directory. */
  datatype Inode = Inode(plain: bool, zone: seq<nat>, size: nat)

  /** first: s_firstdatazone; zmap: the bits of the zone map blocks, in order. */
  datatype Disk = Disk(first: nat, nzones: nat, zmap: seq<bool>, blocks: seq<Block>, inodes: seq<Inode>)

  datatype Outcome<T> = Done(value: T) | Panic

  ghost predicate Shape(d: Disk) {
    && 1 <= d.first <= d.nzones <= 65536
    && |d.blocks| == d.nzones
    && (forall z :: 0 <= z < |d.blocks| ==> IsBlock(d.blocks[z]))
    && (forall f :: 0 <= f < |d.inodes| ==> IsInode(d.inodes[f]))
  }

  ghost predicate IsBlock(b: Block) { |b| == BLOCK_SIZE && forall i :: 0 <= i < BLOCK_SIZE ==> b[i] < 256 }

  ghost predicate IsInode(x: Inode) { |x.zone| == 9 }

  function Zeros(): (b: Block)
    ensures |b| == BLOCK_SIZE && forall i :: 0 <= i < BLOCK_SIZE ==> b[i] == 0
  {
    seq(BLOCK_SIZE, _ => 0)
  }

  // ---- Tables: 512 little-endian unsigned shorts in a block ----

  function Get(b: Block, i: nat): nat
    requires |b| == BLOCK_SIZE && i < ENTRIES
  {
    b[2 * i] + 256 * b[2 * i + 1]
  }

  function Put(b: Block, i: nat, v: nat): (r: Block)
    requires |b| == BLOCK_SIZE && i < ENTRIES
    ensures |r| == BLOCK_SIZE
  {
    b[2 * i := v % 256][2 * i + 1 := v / 256 % 256]
  }

  // ---- bitmap.c ----

  /** The number of the first clear bit, or the number of bits. */
  function FirstZero(bits: seq<bool>): (j: nat)
    ensures j <= |bits| && (forall i :: 0 <= i < j ==> bits[i]) && (j < |bits| ==> !bits[j])
  {
    if bits == [] || !bits[0] then 0 else FirstZero(bits[1..]) + 1
  }

  /** new_block: 0 if there is none. A bit past the last zone stays set. */
  ghost function NewBlock(d: Disk): (r: (Disk, nat))
    requires Shape(d)
    ensures Shape(r.0)
  {
    var j := FirstZero(d.zmap);
    if j == |d.zmap| then (d, 0)
    else
      var d1 := d.(zmap := d.zmap[j := true]);
      var z := j + d.first - 1;
      if z >= d.nzones then (d1, 0) else (d1.(blocks := d.blocks[z := Zeros()]), z)
  }

  /** free_block, with the zone map apart from the rest of the disk. */
  ghost function FreeBlock(d: Disk, zmap: seq<bool>, z: nat): (r: Outcome<seq<bool>>)
    ensures r.Done? ==> |r.value| == |zmap|
  {
    if z < d.first || z >= d.nzones then Panic
    else
      var j := z - d.first + 1;
      if j >= |zmap| || !zmap[j] then Panic else Done(zmap[j := false])
  }

  // ---- inode.c: the index tree ----

  /** A place that holds a zone number: entry i of inode f, or entry i of the table that another place points to. */
  datatype Slot = Top(f: nat, i: nat) | Sub(parent: Slot, i: nat)

  function Owner(s: Slot): nat { if s.Top? then s.f else Owner(s.parent) }

  /** How many levels of tables are below: entries 0-6 of an inode point to data,
      entry 7 to a table, entry 8 to a table of tables. */
  function Level(s: Slot): int {
    if s.Top? then (if s.i < 7 then 0 else s.i - 6) else Level(s.parent) - 1
  }

  ghost predicate IsSlot(d: Disk, s: Slot) {
    match s
    case Top(f, i) => f < |d.inodes| && d.inodes[f].plain && i < 9
    case Sub(p, i) => IsSlot(d, p) && Level(p) > 0 && i < ENTRIES
  }

  /** The place of the b-th block of file f. */
  function SlotOf(f: nat, b: nat): (s: Slot)
    requires b < BIGGEST
  {
    if b < 7 then Top(f, b)
    else if b < 519 then Sub(Top(f, 7), b - 7)
    else Sub(Sub(Top(f, 8), (b - 519) / 512), (b - 519) % 512)
  }

  /** Every block below 7 + 512 + 512 * 512 of a file has a place, at the bottom of its own tree. */
  lemma SlotOfIs(d: Disk, f: nat, b: nat)
    requires b < BIGGEST && f < |d.inodes| && d.inodes[f].plain
    ensures IsSlot(d, SlotOf(f, b)) && Level(SlotOf(f, b)) == 0 && Owner(SlotOf(f, b)) == f
  {
    if b >= 519 {
      var (top, table) := (Top(f, 8), Sub(Top(f, 8), (b - 519) / 512));
      assert (b - 519) / 512 < 512;
      assert IsSlot(d, top) && Level(top) == 2;
      assert IsSlot(d, table) && Level(table) == 1 && Owner(table) == f;
    } else if b >= 7 {
      assert IsSlot(d, Top(f, 7)) && Level(Top(f, 7)) == 1;
    }
  }

  /** No two blocks have the same place. */
  lemma SlotOfInjective(f: nat, b: nat, g: nat, c: nat)
    requires b < BIGGEST && c < BIGGEST && SlotOf(f, b) == SlotOf(g, c)
    ensures f == g && b == c
  {
    if b >= 519 {
      assert SlotOf(g, c).Sub? && SlotOf(g, c).parent.Sub?;
      assert b - 519 == (b - 519) / 512 * 512 + (b - 519) % 512;
      assert c - 519 == (c - 519) / 512 * 512 + (c - 519) % 512;
    }
  }

  /** The zone a place points to; 0: none. */
  ghost function ZoneAt(d: Disk, s: Slot): nat
    requires Shape(d) && IsSlot(d, s)
  {
    match s
    case Top(f, i) => d.inodes[f].zone[i]
    case Sub(p, i) => var z := ZoneAt(d, p); if z == 0 || z >= d.nzones then 0 else Get(d.blocks[z], i)
  }

  function SetZone(d: Disk, f: nat, i: nat, z: nat): Disk
    requires f < |d.inodes| && i < |d.inodes[f].zone|
  {
    d.(inodes := d.inodes[f := d.inodes[f].(zone := d.inodes[f].zone[i := z % 65536])])
  }

  function SetBlock(d: Disk, z: nat, b: Block): Disk
    requires z < |d.blocks|
  {
    d.(blocks := d.blocks[z := b])
  }

  /** Entry i of table t, if there is one, made if `create` and it is 0. */
  ghost function Entry(d: Disk, t: nat, i: nat, create: bool): (r: (Disk, nat))
    requires Shape(d) && i < ENTRIES
    ensures Shape(r.0) && r.0.nzones == d.nzones && r.0.inodes == d.inodes
  {
    if t == 0 || t >= d.nzones then (d, 0)
    else
      var z := Get(d.blocks[t], i);
      if !create || z != 0 then (d, z)
      else
        var (d1, z1) := NewBlock(d);
        if z1 == 0 then (d1, 0) else (SetBlock(d1, t, Put(d1.blocks[t], i, z1)), z1)
  }

  /** _bmap: the zone of a place, made if `create` and there is none. */
  ghost function Ensure(d: Disk, s: Slot, create: bool): (r: (Disk, nat))
    requires Shape(d) && IsSlot(d, s)
    ensures Shape(r.0) && r.0.nzones == d.nzones && |r.0.inodes| == |d.inodes|
    ensures (forall f :: 0 <= f < |d.inodes| ==> r.0.inodes[f].plain == d.inodes[f].plain)
    decreases s
  {
    match s
    case Top(f, i) =>
      if !create || d.inodes[f].zone[i] != 0 then (d, d.inodes[f].zone[i])
      else var (d1, z) := NewBlock(d); (SetZone(d1, f, i, z), z % 65536)
    case Sub(p, i) =>
      var (d1, t) := Ensure(d, p, create);
      Entry(d1, t, i, create)
  }

  ghost function Bmap(d: Disk, f: nat, b: nat, create: bool): Outcome<(Disk, nat)>
    requires Shape(d) && f < |d.inodes| && d.inodes[f].plain
  {
    if b >= BIGGEST then Panic else
    SlotOfIs(d, f, b);
    Done(Ensure(d, SlotOf(f, b), create))
  }

  // ---- truncate.c ----

  /** free_block, free_ind or free_dind of zone z, by level. */
  ghost function FreeTree(d: Disk, zmap: seq<bool>, z: nat, level: nat): (r: Outcome<seq<bool>>)
    requires Shape(d)
    ensures r.Done? ==> |r.value| == |zmap|
    decreases level, ENTRIES + 1
  {
    if z == 0 then Done(zmap)
    else if level == 0 then FreeBlock(d, zmap, z)
    else if z >= d.nzones then Panic
    else match FreeEntries(d, zmap, z, level, 0)
      case Panic => Panic
      case Done(zmap1) => FreeBlock(d, zmap1, z)
  }

  /** The loop over a table, from entry i. */
  ghost function FreeEntries(d: Disk, zmap: seq<bool>, t: nat, level: nat, i: nat): (r: Outcome<seq<bool>>)
    requires Shape(d) && t < d.nzones && level > 0 && i <= ENTRIES
    ensures r.Done? ==> |r.value| == |zmap|
    decreases level, ENTRIES - i
  {
    if i == ENTRIES then Done(zmap)
    else match FreeTree(d, zmap, Get(d.blocks[t], i), level - 1)
      case Panic => Panic
      case Done(zmap1) => FreeEntries(d, zmap1, t, level, i + 1)
  }

  /** Entries i.. of an inode. */
  ghost function FreeZones(d: Disk, zmap: seq<bool>, f: nat, i: nat): (r: Outcome<seq<bool>>)
    requires Shape(d) && f < |d.inodes| && i <= 9
    ensures r.Done? ==> |r.value| == |zmap|
    decreases 9 - i
  {
    if i == 9 then Done(zmap)
    else match FreeTree(d, zmap, d.inodes[f].zone[i], if i < 7 then 0 else i - 6)
      case Panic => Panic
      case Done(zmap1) => FreeZones(d, zmap1, f, i + 1)
  }

  ghost function Truncate(d: Disk, f: nat): Outcome<Disk>
    requires Shape(d) && f < |d.inodes|
  {
    if !d.inodes[f].plain then Done(d)
    else match FreeZones(d, d.zmap, f, 0)
      case Panic => Panic
      case Done(zmap) => Done(d.(zmap := zmap, inodes := d.inodes[f := Inode(true, [0, 0, 0, 0, 0, 0, 0, 0, 0], 0)]))
  }

  // ---- file_dev.c ----

  /** data in place of the bytes of b from position c on. */
  function Overlay(b: seq<nat>, c: nat, data: seq<nat>): (r: seq<nat>)
    requires c + |data| <= |b|
    ensures |r| == |b|
    ensures forall k :: 0 <= k < |b| ==> r[k] == if c <= k < c + |data| then data[k - c] else b[k]
  {
    b[..c] + data + b[c + |data|..]
  }

  ghost predicate Bytes(s: seq<nat>) { forall i :: 0 <= i < |s| ==> s[i] < 256 }

  /** One turn of file_write's loop, once it has its block. */
  ghost function WriteBlock(d: Disk, f: nat, z: nat, pos: nat, chunk: seq<nat>): (r: Disk)
    requires Shape(d) && f < |d.inodes| && z < d.nzones && Bytes(chunk) && pos % BLOCK_SIZE + |chunk| <= BLOCK_SIZE
    ensures Shape(r)
  {
    var d1 := SetBlock(d, z, Overlay(d.blocks[z], pos % BLOCK_SIZE, chunk));
    if pos + |chunk| > d.inodes[f].size then d1.(inodes := d.inodes[f := d.inodes[f].(size := pos + |chunk|)]) else d1
  }

  /** file_write from position pos: the disk, and how many bytes were written. */
  ghost function Write(d: Disk, f: nat, pos: nat, data: seq<nat>): (r: Outcome<(Disk, nat)>)
    requires Shape(d) && f < |d.inodes| && d.inodes[f].plain && Bytes(data)
    ensures r.Done? ==> Shape(r.value.0) && |r.value.0.inodes| == |d.inodes| && r.value.1 <= |data|
    decreases |data|
  {
    if data == [] then Done((d, 0))
    else match Bmap(d, f, pos / BLOCK_SIZE, true)
      case Panic => Panic
      case Done((d1, z)) =>
        if z == 0 || z >= d1.nzones then Done((d1, 0))
        else
          var c := Min(BLOCK_SIZE - pos % BLOCK_SIZE, |data|);
          match Write(WriteBlock(d1, f, z, pos, data[..c]), f, pos + c, data[c..])
          case Panic => Panic
          case Done((d2, n)) => Done((d2, n + c))
  }

  /** Writing that began i bytes earlier. */
  ghost function Shifted(r: Outcome<(Disk, nat)>, i: nat): Outcome<(Disk, nat)> {
    match r
    case Panic => Panic
    case Done((d, n)) => Done((d, n + i))
  }

  /** One turn of the loop of file_write, in the three ways it can go. */
  lemma WriteSteps(d: Disk, f: nat, pos: nat, rest: seq<nat>)
    requires Shape(d) && f < |d.inodes| && d.inodes[f].plain && Bytes(rest) && rest != []
    ensures match Bmap(d, f, pos / BLOCK_SIZE, true)
      case Panic => Write(d, f, pos, rest).Panic?
      case Done((d1, z)) =>
        && Shape(d1) && f < |d1.inodes| && d1.inodes[f].plain
        && if z == 0 || z >= d1.nzones then Write(d, f, pos, rest) == Done((d1, 0))
           else
             var c := Min(BLOCK_SIZE - pos % BLOCK_SIZE, |rest|);
             var d2 := WriteBlock(d1, f, z, pos, rest[..c]);
             f < |d2.inodes| && d2.inodes[f].plain && Write(d, f, pos, rest) ==
                 Shifted(Write(d2, f, pos + c, rest[c..]), c)
  {
    hide Ensure, Shape, SlotOf, IsSlot, WriteBlock;
    if pos / BLOCK_SIZE < BIGGEST {
      SlotOfIs(d, f, pos / BLOCK_SIZE);
      var (d1, z) := Ensure(d, SlotOf(f, pos / BLOCK_SIZE), true);
      if z != 0 && z < d1.nzones { PlainStays(d1, f, z, pos, rest[..Min(BLOCK_SIZE - pos % BLOCK_SIZE, |rest|)]); }
    }
  }

  lemma PlainStays(d: Disk, f: nat, z: nat, pos: nat, chunk: seq<nat>)
    requires Shape(d) && f < |d.inodes| && d.inodes[f].plain && z < d.nzones && Bytes(chunk)
    requires pos % BLOCK_SIZE + |chunk| <= BLOCK_SIZE
    ensures var d' := WriteBlock(d, f, z, pos, chunk); f < |d'.inodes| && d'.inodes[f].plain
  {
  }

  /** file_read of count bytes from position pos; a missing block reads as zeros. */
  ghost function Read(d: Disk, f: nat, pos: nat, count: nat): (r: Outcome<seq<nat>>)
    requires Shape(d) && f < |d.inodes| && d.inodes[f].plain
    decreases count
  {
    if count == 0 then Done([])
    else match Bmap(d, f, pos / BLOCK_SIZE, false)
      case Panic => Panic
      case Done((_, z)) =>
        if z >= d.nzones then Done([]) else
        var nr := pos % BLOCK_SIZE;
        var c := Min(BLOCK_SIZE - nr, count);
        var chunk := if z == 0 then seq(c, _ => 0) else d.blocks[z][nr..nr + c];
        match Read(d, f, pos + c, count - c)
        case Panic => Panic
        case Done(rest) => Done(chunk + rest)
  }
}

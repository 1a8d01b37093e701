/** A file is a sequence of bytes: file_write and file_read are update and slice
    of it, holes and whatever lies past the end read as zero, and truncate frees
    exactly the zones of one file. */
module FileContents {
  import opened Basics
  import opened Zones
  import opened ZoneOwnership

  const LIMIT := BIGGEST * BLOCK_SIZE

  ghost predicate IsFile(d: Disk, f: nat) { f < |d.inodes| && d.inodes[f].plain }

  /** The byte at a position of a file, wherever the end of the file is. */
  ghost function Byte(d: Disk, f: nat, p: nat): nat
    requires Inv(d) && IsFile(d, f) && p < LIMIT
  {
    SlotOfIs(d, f, p / BLOCK_SIZE);
    DataAt(d, SlotOf(f, p / BLOCK_SIZE))[p % BLOCK_SIZE]
  }

  ghost predicate SameSizes(d: Disk, d': Disk, f: nat) {
    && |d'.inodes| == |d.inodes|
    && (forall g :: 0 <= g < |d.inodes| ==>
          d'.inodes[g].plain == d.inodes[g].plain && (g != f ==> d'.inodes[g].size == d.inodes[g].size))
  }

  // ---- Writing into a block ----

  /** Writing into a data block moves no zone. */
  lemma {:induction false} WriteBlockZones(d: Disk, f: nat, s: Slot, pos: nat, chunk: seq<nat>, t: Slot)
    requires Inv(d) && IsSlot(d, s) && Level(s) == 0 && ZoneAt(d, s) != 0 && IsSlot(d, t) && f < |d.inodes|
    requires Bytes(chunk) && pos % BLOCK_SIZE + |chunk| <= BLOCK_SIZE
    ensures ZoneAt(d, s) < d.nzones
    ensures var d' := WriteBlock(d, f, ZoneAt(d, s), pos, chunk); IsSlot(d', t) && ZoneAt(d', t) == ZoneAt(d, t)
    decreases t
  {
    hide Inv, Get, Owned;
    InvShape(d);
    ZoneRange(d, s);
    SameSlots(d, WriteBlock(d, f, ZoneAt(d, s), pos, chunk), t);
    if t.Sub? {
      WriteBlockZones(d, f, s, pos, chunk, t.parent);
      LevelOfParent(d, t);
      ZoneRange(d, t.parent);
      if ZoneAt(d, t.parent) == ZoneAt(d, s) { OneOwner(d, t.parent, s); }
    }
  }

  /** Ownership carries over to a disk with the same zones in the same places and the same map. */
  lemma SameZonesInv(d: Disk, d': Disk)
    requires Inv(d) && Shape(d') && d'.first == d.first && d'.nzones == d.nzones && d'.zmap == d.zmap
    requires forall t :: IsSlot(d', t) <==> IsSlot(d, t)
    requires forall t :: IsSlot(d, t) ==> ZoneAt(d', t) == ZoneAt(d, t)
    ensures Inv(d')
  {
    hide Shape, ZoneAt, IsSlot;
    forall z | d.first <= z < d.nzones ensures Owned(d', z) == Owned(d, z) {
      if Owned(d, z) { var t :| IsSlot(d, t) && ZoneAt(d, t) == z; assert IsSlot(d', t) && ZoneAt(d', t) == z; }
    }
  }

  lemma WriteBlockKeeps(d: Disk, f: nat, s: Slot, pos: nat, chunk: seq<nat>)
    requires Inv(d) && IsSlot(d, s) && Level(s) == 0 && ZoneAt(d, s) != 0 && f < |d.inodes|
    requires Bytes(chunk) && pos % BLOCK_SIZE + |chunk| <= BLOCK_SIZE
    ensures ZoneAt(d, s) < d.nzones
    ensures var d' := WriteBlock(d, f, ZoneAt(d, s), pos, chunk);
            && Inv(d') && SameSizes(d, d', f)
            && (forall t :: IsSlot(d, t) ==> IsSlot(d', t))
            && DataAt(d', s) == Overlay(DataAt(d, s), pos % BLOCK_SIZE, chunk)
            && (forall t :: IsSlot(d, t) && t != s ==> DataAt(d', t) == DataAt(d, t))
  {
    hide Inv, ZoneAt, Owned;
    InvShape(d);
    ZoneRange(d, s);
    var d' := WriteBlock(d, f, ZoneAt(d, s), pos, chunk);
    forall t ensures IsSlot(d', t) == IsSlot(d, t) { SameSlots(d, d', t); }
    forall t | IsSlot(d, t) ensures ZoneAt(d', t) == ZoneAt(d, t) { WriteBlockZones(d, f, s, pos, chunk, t); }
    SameZonesInv(d, d');
    forall t | IsSlot(d, t) && t != s ensures DataAt(d', t) == DataAt(d, t) {
      ZoneRange(d, t);
      if ZoneAt(d, t) == ZoneAt(d, s) { OneOwner(d, t, s); }
    }
  }

  // ---- file_write ----

  /** n bytes of data are at position pos of file f in d', and d' is otherwise like d. */
  ghost predicate Written(d: Disk, d': Disk, f: nat, pos: nat, data: seq<nat>, n: nat) {
    && Inv(d) && Inv(d') && IsFile(d, f) && SameSizes(d, d', f) && d'.first == d.first && d'.nzones == d.nzones
    && n <= |data|
    && d'.inodes[f].size == (if n > 0 && pos + n > d.inodes[f].size then pos + n else d.inodes[f].size)
    && (forall g: nat, p: nat :: IsFile(d, g) && p < LIMIT ==>
          Byte(d', g, p) == if g == f && pos <= p < pos + n then data[p - pos] else Byte(d, g, p))
  }

  ghost predicate Full(d: Disk)
    requires Shape(d)
  {
    forall y :: d.first <= y < d.nzones ==> Owned(d, y)
  }

  /** Making a block changes no byte of any file. */
  lemma GrownBytes(d: Disk, d': Disk, s: Slot, g: nat, p: nat)
    requires Grown(d, d', s) && IsFile(d, g) && p < LIMIT
    ensures IsFile(d', g) && Byte(d', g, p) == Byte(d, g, p)
  {
    hide Inv, DataAt, ZoneAt;
    SlotOfIs(d, g, p / BLOCK_SIZE);
  }

  lemma OneBlock(d: Disk, f: nat, pos: nat, chunk: seq<nat>)
    requires Inv(d) && IsFile(d, f) && pos < LIMIT && pos % BLOCK_SIZE + |chunk| <= BLOCK_SIZE && Bytes(chunk)
    requires chunk != []
    requires var s := SlotOf(f, pos / BLOCK_SIZE); IsSlot(d, s) && ZoneAt(d, s) != 0
    ensures var z := ZoneAt(d, SlotOf(f, pos / BLOCK_SIZE));
            z < d.nzones && Written(d, WriteBlock(d, f, z, pos, chunk), f, pos, chunk, |chunk|)
  {
    hide Inv, ZoneAt, DataAt, IsSlot, Overlay;
    var s := SlotOf(f, pos / BLOCK_SIZE);
    SlotOfIs(d, f, pos / BLOCK_SIZE);
    WriteBlockKeeps(d, f, s, pos, chunk);
    InvShape(d);
    var d' := WriteBlock(d, f, ZoneAt(d, s), pos, chunk);
    forall g: nat, p: nat | IsFile(d, g) && p < LIMIT
      ensures Byte(d', g, p) == if g == f && pos <= p < pos + |chunk| then chunk[p - pos] else Byte(d, g, p)
    {
      OneByte(d, d', f, pos, chunk, g, p);
    }
  }

  lemma OneByte(d: Disk, d': Disk, f: nat, pos: nat, chunk: seq<nat>, g: nat, p: nat)
    requires Inv(d) && Inv(d') && IsFile(d, f) && SameSizes(d, d', f) && pos < LIMIT
    requires pos % BLOCK_SIZE + |chunk| <= BLOCK_SIZE
    requires IsFile(d, g) && p < LIMIT
    requires var s := SlotOf(f, pos / BLOCK_SIZE);
             && IsSlot(d, s) && (forall t :: IsSlot(d, t) ==> IsSlot(d', t))
             && DataAt(d', s) == Overlay(DataAt(d, s), pos % BLOCK_SIZE, chunk)
             && (forall t :: IsSlot(d, t) && t != s ==> DataAt(d', t) == DataAt(d, t))
    ensures Byte(d', g, p) == if g == f && pos <= p < pos + |chunk| then chunk[p - pos] else Byte(d, g, p)
  {
    hide Inv, ZoneAt, DataAt, IsSlot, SlotOf;
    SlotOfIs(d, g, p / BLOCK_SIZE);
    if SlotOf(g, p / BLOCK_SIZE) == SlotOf(f, pos / BLOCK_SIZE) {
      SlotOfInjective(g, p / BLOCK_SIZE, f, pos / BLOCK_SIZE);
    } else {
      assert g != f || p / BLOCK_SIZE != pos / BLOCK_SIZE;
    }
  }

  lemma GrownThenWritten(d: Disk, d1: Disk, s: Slot, d2: Disk, f: nat, pos: nat, data: seq<nat>, n: nat)
    requires Grown(d, d1, s) && Written(d1, d2, f, pos, data, n)
    ensures Written(d, d2, f, pos, data, n)
  {
    hide Inv, Byte, Grown;
    GrownSizes(d, d1, s);
    forall g: nat, p: nat | IsFile(d, g) && p < LIMIT
      ensures Byte(d2, g, p) == if g == f && pos <= p < pos + n then data[p - pos] else Byte(d, g, p)
    {
      GrownBytes(d, d1, s, g, p);
    }
  }

  lemma GrownSizes(d: Disk, d': Disk, s: Slot)
    requires Grown(d, d', s)
    ensures Inv(d) && Inv(d') && d'.first == d.first && d'.nzones == d.nzones && |d'.inodes| == |d.inodes|
    ensures forall f :: 0 <= f < |d.inodes| ==>
              d'.inodes[f].plain == d.inodes[f].plain && d'.inodes[f].size == d.inodes[f].size
  {
    hide Inv, DataAt, ZoneAt;
  }

  /** A part and then the rest. */
  lemma WrittenAppend(d: Disk, d1: Disk, d2: Disk, f: nat, pos: nat, data: seq<nat>, c: nat, n: nat)
    requires c <= |data| && Written(d, d1, f, pos, data[..c], c) && Written(d1, d2, f, pos + c, data[c..], n)
    ensures Written(d, d2, f, pos, data, c + n)
  {
    hide Inv, Byte;
  }

  lemma WrittenNothing(d: Disk, f: nat, pos: nat, data: seq<nat>)
    requires Inv(d) && IsFile(d, f)
    ensures Written(d, d, f, pos, data, 0)
  {
    hide Inv, Byte;
  }

  /** One turn of the loop: it stops on a full disk, or writes the bytes up to the end of the block. */
  lemma WriteTurn(d: Disk, f: nat, pos: nat, data: seq<nat>) returns (d2: Disk, c: nat)
    requires Inv(d) && IsFile(d, f) && Bytes(data) && pos + |data| <= LIMIT && data != []
    ensures c <= |data| && Inv(d2) && Shape(d2) && IsFile(d2, f) && Written(d, d2, f, pos, data[..c], c)
    ensures c == 0 ==> Write(d, f, pos, data) == Done((d2, 0)) && Full(d2)
    ensures c > 0 ==> Write(d, f, pos, data) == Shifted(Write(d2, f, pos + c, data[c..]), c)
  {
    hide Inv, Written, Full, Ensure, Grown, WriteBlock, IsSlot, ZoneAt, Write;
    InvShape(d);
    WriteSteps(d, f, pos, data);
    var s := SlotOf(f, pos / BLOCK_SIZE);
    SlotOfIs(d, f, pos / BLOCK_SIZE);
    EnsureKeeps(d, s, true);
    var (d1, z) := Ensure(d, s, true);
    GrownSizes(d, d1, s);
    InvShape(d1);
    SlotOfIs(d1, f, pos / BLOCK_SIZE);
    ZoneRange(d1, s);
    if z == 0 {
      d2, c := d1, 0;
      WrittenNothing(d1, f, pos, data[..0]);
      FullFrom(d1);
    } else {
      c := Min(BLOCK_SIZE - pos % BLOCK_SIZE, |data|);
      OneBlock(d1, f, pos, data[..c]);
      d2 := WriteBlock(d1, f, z, pos, data[..c]);
    }
    GrownThenWritten(d, d1, s, d2, f, pos, data[..c], c);
    WrittenFile(d, d2, f, pos, data[..c], c);
    InvShape(d2);
  }

  lemma {:induction false} WriteWithin(d: Disk, f: nat, pos: nat, data: seq<nat>)
    requires Inv(d) && IsFile(d, f) && Bytes(data) && pos + |data| <= LIMIT
    ensures Write(d, f, pos, data).Done?
    ensures var (d', n) := Write(d, f, pos, data).value; Written(d, d', f, pos, data, n) && (n < |data| ==> Full(d'))
    decreases |data|
  {
    hide Inv, Written, Full, Write;
    InvShape(d);
    if data == [] {
      WrittenNothing(d, f, pos, data);
      WriteNothing(d, f, pos);
    } else {
      var d2, c := WriteTurn(d, f, pos, data);
      if c == 0 {
        WrittenNothing(d2, f, pos + c, data[c..]);
        WrittenAppend(d, d2, d2, f, pos, data, c, 0);
      } else {
        WriteWithin(d2, f, pos + c, data[c..]);
        var (d3, n) := Write(d2, f, pos + c, data[c..]).value;
        WrittenAppend(d, d2, d3, f, pos, data, c, n);
      }
    }
  }

  lemma WriteNothing(d: Disk, f: nat, pos: nat)
    requires Shape(d) && IsFile(d, f)
    ensures Write(d, f, pos, []) == Done((d, 0))
  {
  }

  lemma FullFrom(d: Disk)
    requires Shape(d) && forall y :: d.first <= y < d.nzones ==> Owned(d, y)
    ensures Full(d)
  {
    hide Owned;
  }

  lemma WrittenFile(d: Disk, d': Disk, f: nat, pos: nat, data: seq<nat>, n: nat)
    requires Written(d, d', f, pos, data, n)
    ensures Inv(d') && IsFile(d', f)
  {
    hide Inv, Byte;
  }

  /** Data that reach past the largest file: as far as that the write goes as if there were no more; if it gets
      there, it panics. */
  lemma {:induction false} WriteAcross(d: Disk, f: nat, pos: nat, data: seq<nat>)
    requires Shape(d) && IsFile(d, f) && Bytes(data) && pos < LIMIT < pos + |data|
    ensures match Write(d, f, pos, data[..LIMIT - pos])
            case Panic => true
            case Done((d2, n)) => Write(d, f, pos, data) == if n == LIMIT - pos then Panic else Done((d2, n))
    decreases |data|
  {
    hide Ensure, WriteBlock, Bytes, Shape, Write;
    var m := LIMIT - pos;
    BytesPart(data, m);
    WriteSteps(d, f, pos, data);
    WriteSteps(d, f, pos, data[..m]);
    var bmap := Bmap(d, f, pos / BLOCK_SIZE, true);
    if bmap.Done? && bmap.value.1 != 0 && bmap.value.1 < bmap.value.0.nzones {
      var (d1, z) := bmap.value;
      var c := Min(BLOCK_SIZE - pos % BLOCK_SIZE, |data|);
      BytesPart(data, c);
      assert c == Min(BLOCK_SIZE - pos % BLOCK_SIZE, m);
      assert data[..m][..c] == data[..c] && data[..m][c..] == data[c..][..m - c];
      var d2 := WriteBlock(d1, f, z, pos, data[..c]);
      PlainStays(d1, f, z, pos, data[..c]);
      if c < m {
        WriteAcross(d2, f, pos + c, data[c..]);
      } else {
        WriteNothing(d2, f, pos + c);
        WriteBeyond(d2, f, pos + c, data[c..]);
      }
    }
  }

  lemma BytesPart(data: seq<nat>, c: nat)
    requires Bytes(data) && c <= |data|
    ensures Bytes(data[..c]) && Bytes(data[c..])
  {
  }

  lemma WriteBeyond(d: Disk, f: nat, pos: nat, data: seq<nat>)
    requires Shape(d) && IsFile(d, f) && Bytes(data) && data != [] && pos >= LIMIT
    ensures Write(d, f, pos, data).Panic?
  {
  }

  /** file_write, unless it panics, puts the bytes it says it has written at its position, extends the file if
      need be, and changes no other byte of any file; it stops short only on a full disk. */
  lemma WriteIsUpdate(d: Disk, f: nat, pos: nat, data: seq<nat>)
    requires Inv(d) && IsFile(d, f) && Bytes(data) && !Write(d, f, pos, data).Panic?
    ensures var (d', n) := Write(d, f, pos, data).value;
            Written(d, d', f, pos, data, n) && (n > 0 ==> pos + n <= LIMIT) && (n < |data| ==> Full(d'))
  {
    hide Inv, Write, Full, Byte;
    InvShape(d);
    if pos + |data| <= LIMIT {
      WriteWithin(d, f, pos, data);
    } else if pos < LIMIT {
      WriteWithin(d, f, pos, data[..LIMIT - pos]);
      WriteAcross(d, f, pos, data);
    } else {
      if data != [] { WriteBeyond(d, f, pos, data); }
      WriteNothing(d, f, pos);
      WrittenNothing(d, f, pos, data);
    }
  }

  // ---- file_read ----

  /** file_read returns the bytes at its position. */
  lemma {:induction false} ReadIsSlice(d: Disk, f: nat, pos: nat, count: nat)
    requires Inv(d) && IsFile(d, f) && pos + count <= LIMIT
    ensures Read(d, f, pos, count).Done?
    ensures var r := Read(d, f, pos, count).value; |r| == count && forall k :: 0 <= k < count ==>
              r[k] == Byte(d, f, pos + k)
    decreases count
  {
    hide Inv, Byte, Read;
    InvShape(d);
    if count == 0 {
      ReadNothing(d, f, pos);
    } else {
      var c := Min(BLOCK_SIZE - pos % BLOCK_SIZE, count);
      var chunk := OneTurn(d, f, pos, count);
      ReadIsSlice(d, f, pos + c, count - c);
      var rest := Read(d, f, pos + c, count - c).value;
      forall k | 0 <= k < count ensures (chunk + rest)[k] == Byte(d, f, pos + k) {
        if k >= c { assert pos + k == pos + c + (k - c); }
      }
    }
  }

  lemma ReadNothing(d: Disk, f: nat, pos: nat)
    requires Shape(d) && IsFile(d, f)
    ensures Read(d, f, pos, 0) == Done([])
  {
  }

  /** One turn of the loop reads the bytes up to the end of the block. */
  lemma OneTurn(d: Disk, f: nat, pos: nat, count: nat) returns (chunk: seq<nat>)
    requires Inv(d) && IsFile(d, f) && pos + count <= LIMIT && count > 0
    ensures var c := Min(BLOCK_SIZE - pos % BLOCK_SIZE, count);
            && |chunk| == c && (forall k :: 0 <= k < c ==> chunk[k] == Byte(d, f, pos + k))
            && Read(d, f, pos, count) == (match Read(d, f, pos + c, count - c)
                                          case Panic => Panic
                                          case Done(rest) => Done(chunk + rest))
  {
    hide Inv, Ensure, IsSlot, Byte, ZoneAt;
    InvShape(d);
    var s := SlotOf(f, pos / BLOCK_SIZE);
    SlotOfIs(d, f, pos / BLOCK_SIZE);
    EnsureKeeps(d, s, false);
    ZoneRange(d, s);
    var (nr, c) := (pos % BLOCK_SIZE, Min(BLOCK_SIZE - pos % BLOCK_SIZE, count));
    chunk := if ZoneAt(d, s) == 0 then seq(c, _ => 0) else d.blocks[ZoneAt(d, s)][nr..nr + c];
    forall k | 0 <= k < c ensures chunk[k] == Byte(d, f, pos + k) { ReadByte(d, f, pos, k); }
  }

  lemma ReadByte(d: Disk, f: nat, pos: nat, k: nat)
    requires Inv(d) && IsFile(d, f) && pos + k < LIMIT && pos % BLOCK_SIZE + k < BLOCK_SIZE
    ensures IsSlot(d, SlotOf(f, pos / BLOCK_SIZE))
    ensures Byte(d, f, pos + k) == DataAt(d, SlotOf(f, pos / BLOCK_SIZE))[pos % BLOCK_SIZE + k]
  {
    hide Inv, DataAt, SlotOf, IsSlot;
    SlotOfIs(d, f, pos / BLOCK_SIZE);
    assert (pos + k) / BLOCK_SIZE == pos / BLOCK_SIZE && (pos + k) % BLOCK_SIZE == pos % BLOCK_SIZE + k;
  }

  // ---- truncate ----

  /** t is s, or somewhere in the tables below it. */
  ghost predicate Below(t: Slot, s: Slot) { t == s || (t.Sub? && Below(t.parent, s)) }

  ghost predicate OwnedBelow(d: Disk, s: Slot, z: nat)
    requires Shape(d)
  {
    exists t :: IsSlot(d, t) && Below(t, s) && ZoneAt(d, t) == z
  }

  ghost function BitOf(d: Disk, z: nat): nat
    requires d.first <= z
  {
    z - d.first + 1
  }

  /** All the zones of a set are marked. */
  ghost predicate Marked(d: Disk, zmap: seq<bool>, zones: set<nat>) {
    && 1 <= d.first <= d.nzones && |zmap| > d.nzones - d.first
    && (forall z :: z in zones ==> d.first <= z < d.nzones && zmap[BitOf(d, z)])
  }

  /** zmap' is zmap with the bits of the zones in `gone` cleared, all of which were set. */
  ghost predicate Cleared(d: Disk, zmap: seq<bool>, zmap': seq<bool>, gone: set<nat>) {
    && |zmap'| == |zmap| && Marked(d, zmap, gone)
    && (forall z :: d.first <= z < d.nzones ==> zmap'[BitOf(d, z)] == (zmap[BitOf(d, z)] && z !in gone))
    && (forall j :: 0 <= j < |zmap| && (j == 0 || j > d.nzones - d.first) ==> zmap'[j] == zmap[j])
  }

  ghost function ZonesBelow(d: Disk, s: Slot): set<nat>
    requires Shape(d)
  {
    set z | 0 < z < d.nzones && OwnedBelow(d, s, z)
  }

  /** The zones below the entries from i on of the table at s. */
  ghost function ZonesFrom(d: Disk, s: Slot, i: nat): set<nat>
    requires Shape(d)
    decreases ENTRIES - i
  {
    if i >= ENTRIES then {} else ZonesBelow(d, Sub(s, i)) + ZonesFrom(d, s, i + 1)
  }

  lemma ClearedTrans(d: Disk, m0: seq<bool>, m1: seq<bool>, m2: seq<bool>, a: set<nat>, b: set<nat>)
    requires Cleared(d, m0, m1, a) && Cleared(d, m1, m2, b)
    ensures Cleared(d, m0, m2, a + b)
  {
  }

  lemma StillMarked(d: Disk, m0: seq<bool>, m1: seq<bool>, a: set<nat>, b: set<nat>)
    requires Marked(d, m0, a + b) && Cleared(d, m0, m1, a) && a !! b
    ensures Marked(d, m1, b)
  {
  }

  lemma FreeOne(d: Disk, zmap: seq<bool>, z: nat)
    requires Shape(d) && Marked(d, zmap, {z})
    ensures FreeBlock(d, zmap, z).Done? && Cleared(d, zmap, FreeBlock(d, zmap, z).value, {z})
  {
    assert z in {z};
  }

  lemma {:induction false} BelowTable(t: Slot, s: Slot) returns (i: nat)
    requires Below(t, s) && t != s
    ensures Below(t, Sub(s, i))
  {
    if t.parent == s { i := t.i; } else { i := BelowTable(t.parent, s); }
  }

  lemma {:induction false} BelowUp(t: Slot, s: Slot, i: nat)
    requires Below(t, Sub(s, i))
    ensures Below(t, s) && t != s
    decreases t
  {
    if t != Sub(s, i) { BelowUp(t.parent, s, i); } else { assert Below(s, s); }
    BelowShorter(t, s, i);
  }

  lemma {:induction false} BelowShorter(t: Slot, s: Slot, i: nat)
    requires Below(t, Sub(s, i))
    ensures Depth(t) > Depth(s)
    decreases t
  {
    if t != Sub(s, i) { BelowShorter(t.parent, s, i); }
  }

  function Depth(s: Slot): nat { if s.Top? then 0 else Depth(s.parent) + 1 }

  /** Subtrees of different entries share no place. */
  lemma {:induction false} BelowApart(t: Slot, s: Slot, i: nat, j: nat)
    requires Below(t, Sub(s, i)) && Below(t, Sub(s, j))
    ensures i == j
    decreases t
  {
    if t != Sub(s, i) && t != Sub(s, j) {
      BelowApart(t.parent, s, i, j);
    } else if t == Sub(s, i) && t != Sub(s, j) {
      BelowShorter(s, s, j);
    } else if t == Sub(s, j) && t != Sub(s, i) {
      BelowShorter(s, s, i);
    }
  }

  lemma InZonesFrom(d: Disk, s: Slot, i: nat, z: nat)
    requires Shape(d) && i <= ENTRIES
    ensures z in ZonesFrom(d, s, i) <==> exists j :: i <= j < ENTRIES && z in ZonesBelow(d, Sub(s, j))
    decreases ENTRIES - i
  {
    hide ZonesBelow;
    if i < ENTRIES { InZonesFrom(d, s, i + 1, z); }
  }

  /** The zones below a table place: its own, and those below its entries. */
  lemma ZonesOfTable(d: Disk, s: Slot)
    requires Inv(d) && IsSlot(d, s) && Level(s) > 0 && ZoneAt(d, s) != 0
    ensures ZonesBelow(d, s) == ZonesFrom(d, s, 0) + {ZoneAt(d, s)} && ZoneAt(d, s) !in ZonesFrom(d, s, 0)
  {
    hide Inv, ZonesFrom;
    InvShape(d);
    forall z ensures z in ZonesBelow(d, s) <==> z in ZonesFrom(d, s, 0) || z == ZoneAt(d, s) { ZoneOfTable(d, s, z); }
    if ZoneAt(d, s) in ZonesFrom(d, s, 0) { NotBelowItself(d, s); }
  }

  lemma ZoneOfTable(d: Disk, s: Slot, z: nat)
    requires Inv(d) && IsSlot(d, s) && Level(s) > 0 && ZoneAt(d, s) != 0
    ensures z in ZonesBelow(d, s) <==> z in ZonesFrom(d, s, 0) || z == ZoneAt(d, s)
  {
    hide Inv, ZonesFrom, ZoneAt;
    InvShape(d);
    ZoneRange(d, s);
    InZonesFrom(d, s, 0, z);
    if z == ZoneAt(d, s) {
      assert Below(s, s);
    } else if z in ZonesBelow(d, s) {
      var t :| IsSlot(d, t) && Below(t, s) && ZoneAt(d, t) == z;
      var i := BelowTable(t, s);
      EntryBelow(d, t, s, i);
      assert OwnedBelow(d, Sub(s, i), z);
      assert z in ZonesBelow(d, Sub(s, i));
    }
    if z in ZonesFrom(d, s, 0) {
      var j :| 0 <= j < ENTRIES && z in ZonesBelow(d, Sub(s, j));
      var t :| IsSlot(d, t) && Below(t, Sub(s, j)) && ZoneAt(d, t) == z;
      BelowUp(t, s, j);
    }
  }

  lemma {:induction false} EntryBelow(d: Disk, t: Slot, s: Slot, i: nat)
    requires IsSlot(d, t) && Below(t, Sub(s, i))
    ensures i < ENTRIES
    decreases t
  {
    if t != Sub(s, i) { EntryBelow(d, t.parent, s, i); }
  }

  lemma NotBelowItself(d: Disk, s: Slot)
    requires Inv(d) && IsSlot(d, s) && ZoneAt(d, s) != 0
    ensures ZoneAt(d, s) !in ZonesFrom(d, s, 0)
  {
    hide Inv, ZonesFrom, ZoneAt;
    InvShape(d);
    InZonesFrom(d, s, 0, ZoneAt(d, s));
    if ZoneAt(d, s) in ZonesFrom(d, s, 0) {
      var j :| 0 <= j < ENTRIES && ZoneAt(d, s) in ZonesBelow(d, Sub(s, j));
      var t :| IsSlot(d, t) && Below(t, Sub(s, j)) && ZoneAt(d, t) == ZoneAt(d, s);
      OneOwner(d, t, s);
      BelowUp(t, s, j);
    }
  }

  /** Different entries own different zones. */
  lemma EntriesApart(d: Disk, s: Slot, i: nat)
    requires Inv(d) && IsSlot(d, s) && i < ENTRIES
    ensures ZonesBelow(d, Sub(s, i)) !! ZonesFrom(d, s, i + 1)
  {
    hide Inv, ZonesFrom, ZoneAt;
    InvShape(d);
    forall z | z in ZonesBelow(d, Sub(s, i)) ensures z !in ZonesFrom(d, s, i + 1) {
      InZonesFrom(d, s, i + 1, z);
      if z in ZonesFrom(d, s, i + 1) {
        var j :| i + 1 <= j < ENTRIES && z in ZonesBelow(d, Sub(s, j));
        var t :| IsSlot(d, t) && Below(t, Sub(s, i)) && ZoneAt(d, t) == z;
        var u :| IsSlot(d, u) && Below(u, Sub(s, j)) && ZoneAt(d, u) == z;
        OneOwner(d, t, u);
        BelowApart(t, s, i, j);
      }
    }
  }

  /** Nothing is below a place without a zone, and only itself below a data place. */
  lemma {:induction false} NothingBelow(d: Disk, t: Slot, s: Slot)
    requires Inv(d) && IsSlot(d, t) && Below(t, s) && t != s && ZoneAt(d, t) != 0
    ensures IsSlot(d, s) && ZoneAt(d, s) != 0 && Level(s) > 0
    decreases t
  {
    hide Inv, Get;
    InvShape(d);
    if t.parent != s { NothingBelow(d, t.parent, s); LevelOfParent(d, t); } else { LevelOfParent(d, t); }
  }

  lemma ZonesOfLeaf(d: Disk, s: Slot)
    requires Inv(d) && IsSlot(d, s) && (Level(s) == 0 || ZoneAt(d, s) == 0)
    ensures ZonesBelow(d, s) == if ZoneAt(d, s) == 0 then {} else {ZoneAt(d, s)}
  {
    hide Inv, ZoneAt;
    InvShape(d);
    ZoneRange(d, s);
    forall z | z in ZonesBelow(d, s) ensures z == ZoneAt(d, s) {
      var t :| IsSlot(d, t) && Below(t, s) && ZoneAt(d, t) == z;
      if t != s { NothingBelow(d, t, s); }
    }
    if ZoneAt(d, s) != 0 { assert Below(s, s); assert OwnedBelow(d, s, ZoneAt(d, s)); }
  }

  /** Freeing what a place points to clears exactly the bits of the zones below it. */
  lemma {:induction false} FreeTreeClears(d: Disk, zmap: seq<bool>, s: Slot)
    requires Inv(d) && IsSlot(d, s) && Marked(d, zmap, ZonesBelow(d, s)) && Level(s) >= 0
    ensures FreeTree(d, zmap, ZoneAt(d, s), Level(s)).Done?
    ensures Cleared(d, zmap, FreeTree(d, zmap, ZoneAt(d, s), Level(s)).value, ZonesBelow(d, s))
    decreases Level(s), ENTRIES + 1
  {
    hide Inv, ZonesBelow, ZonesFrom, FreeBlock, Cleared, Marked, ZoneAt;
    InvShape(d);
    ZoneRange(d, s);
    var z := ZoneAt(d, s);
    if z == 0 {
      ZonesOfLeaf(d, s);
      ClearedNothing(d, zmap, ZonesBelow(d, s));
    } else if Level(s) == 0 {
      ZonesOfLeaf(d, s);
      FreeOne(d, zmap, z);
    } else {
      ZonesOfTable(d, s);
      MarkedPart(d, zmap, ZonesFrom(d, s, 0), {z});
      FreeEntriesClears(d, zmap, s, 0);
      var zmap1 := FreeEntries(d, zmap, z, Level(s), 0).value;
      StillMarked(d, zmap, zmap1, ZonesFrom(d, s, 0), {z});
      FreeOne(d, zmap1, z);
      ClearedTrans(d, zmap, zmap1, FreeBlock(d, zmap1, z).value, ZonesFrom(d, s, 0), {z});
    }
  }

  lemma ClearedNothing(d: Disk, zmap: seq<bool>, zones: set<nat>)
    requires Marked(d, zmap, zones) && zones == {}
    ensures Cleared(d, zmap, zmap, zones)
  {
  }

  lemma MarkedPart(d: Disk, zmap: seq<bool>, a: set<nat>, b: set<nat>)
    requires Marked(d, zmap, a + b)
    ensures Marked(d, zmap, a)
  {
  }

  lemma {:induction false} FreeEntriesClears(d: Disk, zmap: seq<bool>, s: Slot, i: nat)
    requires Inv(d) && IsSlot(d, s) && ZoneAt(d, s) != 0 && Level(s) > 0 && i <= ENTRIES
    requires Marked(d, zmap, ZonesFrom(d, s, i))
    ensures ZoneAt(d, s) < d.nzones && FreeEntries(d, zmap, ZoneAt(d, s), Level(s), i).Done?
    ensures Cleared(d, zmap, FreeEntries(d, zmap, ZoneAt(d, s), Level(s), i).value, ZonesFrom(d, s, i))
    decreases Level(s), ENTRIES - i
  {
    hide Inv, ZonesBelow, FreeTree, Cleared, Marked;
    InvShape(d);
    ZoneRange(d, s);
    if i == ENTRIES {
      ClearedNothing(d, zmap, ZonesFrom(d, s, i));
    } else {
      var e := Sub(s, i);
      EntriesApart(d, s, i);
      MarkedPart(d, zmap, ZonesBelow(d, e), ZonesFrom(d, s, i + 1));
      FreeTreeClears(d, zmap, e);
      var zmap1 := FreeTree(d, zmap, ZoneAt(d, e), Level(e)).value;
      StillMarked(d, zmap, zmap1, ZonesBelow(d, e), ZonesFrom(d, s, i + 1));
      FreeEntriesClears(d, zmap1, s, i + 1);
      ClearedTrans(d, zmap, zmap1, FreeEntries(d, zmap1, ZoneAt(d, s), Level(s), i + 1).value, ZonesBelow(d, e),
          ZonesFrom(d, s, i + 1));
    }
  }

  function Root(s: Slot): nat { if s.Top? then s.i else Root(s.parent) }

  lemma {:induction false} BelowRoot(t: Slot, f: nat, i: nat)
    ensures Below(t, Top(f, i)) <==> Owner(t) == f && Root(t) == i
  {
    if t.Sub? { BelowRoot(t.parent, f, i); }
  }

  lemma {:induction false} SlotRoot(d: Disk, t: Slot)
    requires IsSlot(d, t)
    ensures Root(t) < 9 && IsFile(d, Owner(t)) && IsSlot(d, Top(Owner(t), Root(t)))
  {
    if t.Sub? { SlotRoot(d, t.parent); }
  }

  /** The zones below the entries from i on of an inode. */
  ghost function ZonesOfFile(d: Disk, f: nat, i: nat): set<nat>
    requires Shape(d)
    decreases 9 - i
  {
    if i >= 9 then {} else ZonesBelow(d, Top(f, i)) + ZonesOfFile(d, f, i + 1)
  }

  lemma InZonesOfFile(d: Disk, f: nat, i: nat, z: nat)
    requires Shape(d) && i <= 9
    ensures z in ZonesOfFile(d, f, i) <==> exists k :: i <= k < 9 && z in ZonesBelow(d, Top(f, k))
    decreases 9 - i
  {
    hide ZonesBelow;
    if i < 9 { InZonesOfFile(d, f, i + 1, z); }
  }

  /** Zone z belongs to file f. */
  ghost predicate OwnedBy(d: Disk, f: nat, z: nat)
    requires Shape(d)
  {
    exists t :: IsSlot(d, t) && Owner(t) == f && ZoneAt(d, t) == z
  }

  lemma ZonesOfFileAre(d: Disk, f: nat, z: nat)
    requires Inv(d)
    ensures z in ZonesOfFile(d, f, 0) <==> z != 0 && OwnedBy(d, f, z)
  {
    hide Inv, ZonesOfFile, ZoneAt;
    InvShape(d);
    InZonesOfFile(d, f, 0, z);
    if z != 0 && OwnedBy(d, f, z) {
      var t :| IsSlot(d, t) && Owner(t) == f && ZoneAt(d, t) == z;
      SlotRoot(d, t);
      BelowRoot(t, f, Root(t));
      ZoneRange(d, t);
      assert OwnedBelow(d, Top(f, Root(t)), z);
      assert z in ZonesBelow(d, Top(f, Root(t)));
    }
    if z in ZonesOfFile(d, f, 0) {
      var k :| 0 <= k < 9 && z in ZonesBelow(d, Top(f, k));
      var t :| IsSlot(d, t) && Below(t, Top(f, k)) && ZoneAt(d, t) == z;
      BelowRoot(t, f, k);
    }
  }

  lemma TopsApart(d: Disk, f: nat, i: nat)
    requires Inv(d) && i < 9
    ensures ZonesBelow(d, Top(f, i)) !! ZonesOfFile(d, f, i + 1)
  {
    hide Inv, ZonesOfFile, ZoneAt;
    InvShape(d);
    forall z | z in ZonesBelow(d, Top(f, i)) ensures z !in ZonesOfFile(d, f, i + 1) {
      InZonesOfFile(d, f, i + 1, z);
      if z in ZonesOfFile(d, f, i + 1) {
        var j :| i + 1 <= j < 9 && z in ZonesBelow(d, Top(f, j));
        var t :| IsSlot(d, t) && Below(t, Top(f, i)) && ZoneAt(d, t) == z;
        var u :| IsSlot(d, u) && Below(u, Top(f, j)) && ZoneAt(d, u) == z;
        OneOwner(d, t, u);
        BelowRoot(t, f, i);
        BelowRoot(t, f, j);
      }
    }
  }

  lemma {:induction false} FreeZonesClears(d: Disk, zmap: seq<bool>, f: nat, i: nat)
    requires Inv(d) && IsFile(d, f) && i <= 9 && Marked(d, zmap, ZonesOfFile(d, f, i))
    ensures FreeZones(d, zmap, f, i).Done? && Cleared(d, zmap, FreeZones(d, zmap, f, i).value, ZonesOfFile(d, f, i))
    decreases 9 - i
  {
    hide Inv, ZonesBelow, FreeTree, Cleared, Marked;
    InvShape(d);
    if i == 9 {
      ClearedNothing(d, zmap, ZonesOfFile(d, f, i));
    } else {
      var s := Top(f, i);
      TopsApart(d, f, i);
      MarkedPart(d, zmap, ZonesBelow(d, s), ZonesOfFile(d, f, i + 1));
      FreeTreeClears(d, zmap, s);
      var zmap1 := FreeTree(d, zmap, ZoneAt(d, s), Level(s)).value;
      StillMarked(d, zmap, zmap1, ZonesBelow(d, s), ZonesOfFile(d, f, i + 1));
      FreeZonesClears(d, zmap1, f, i + 1);
      ClearedTrans(d, zmap, zmap1, FreeZones(d, zmap1, f, i + 1).value, ZonesBelow(d, s), ZonesOfFile(d, f, i + 1));
    }
  }

  lemma OwnersMarked(d: Disk, f: nat)
    requires Inv(d)
    ensures Marked(d, d.zmap, ZonesOfFile(d, f, 0))
  {
    hide Inv, ZonesOfFile, Owned;
    InvShape(d);
    forall z | z in ZonesOfFile(d, f, 0) ensures d.first <= z < d.nzones && d.zmap[BitOf(d, z)] {
      ZonesOfFileAre(d, f, z);
      var t :| IsSlot(d, t) && Owner(t) == f && ZoneAt(d, t) == z;
      ZoneRange(d, t);
      MapBit(d, z);
    }
  }

  /** The disk after truncation, with the map as it came out. */
  ghost function Emptied(d: Disk, f: nat, zmap: seq<bool>): Disk
    requires f < |d.inodes|
  {
    d.(zmap := zmap, inodes := d.inodes[f := Inode(true, [0, 0, 0, 0, 0, 0, 0, 0, 0], 0)])
  }

  lemma {:induction false} EmptiedZones(d: Disk, f: nat, zmap: seq<bool>, t: Slot)
    requires Inv(d) && IsFile(d, f) && IsSlot(d, t)
    ensures Shape(Emptied(d, f, zmap)) && IsSlot(Emptied(d, f, zmap), t)
    ensures ZoneAt(Emptied(d, f, zmap), t) == if Owner(t) == f then 0 else ZoneAt(d, t)
  {
    hide Inv;
    InvShape(d);
    SameSlots(d, Emptied(d, f, zmap), t);
    if t.Sub? { EmptiedZones(d, f, zmap, t.parent); }
  }

  lemma EmptiedOwned(d: Disk, f: nat, zmap: seq<bool>, y: nat)
    requires Inv(d) && IsFile(d, f) && y != 0
    ensures Shape(Emptied(d, f, zmap)) && (Owned(Emptied(d, f, zmap), y) <==> Owned(d, y) && !OwnedBy(d, f, y))
  {
    hide Inv, ZoneAt;
    InvShape(d);
    var d' := Emptied(d, f, zmap);
    if Owned(d, y) && !OwnedBy(d, f, y) {
      var t :| IsSlot(d, t) && ZoneAt(d, t) == y;
      EmptiedZones(d, f, zmap, t);
      assert IsSlot(d', t) && ZoneAt(d', t) == y;
    }
    if Owned(d', y) {
      var t :| IsSlot(d', t) && ZoneAt(d', t) == y;
      SameSlots(d, d', t);
      EmptiedZones(d, f, zmap, t);
      if OwnedBy(d, f, y) {
        var u :| IsSlot(d, u) && Owner(u) == f && ZoneAt(d, u) == y;
        OneOwner(d, t, u);
      }
    }
  }

  lemma MapBit(d: Disk, z: nat)
    requires Inv(d) && d.first <= z < d.nzones
    ensures z - d.first + 1 < |d.zmap| && (d.zmap[z - d.first + 1] <==> Owned(d, z))
  {
    hide Owned, ZonesInRange, NoSharing;
  }

  lemma ClearedBit(d: Disk, m: seq<bool>, m': seq<bool>, gone: set<nat>, z: nat)
    requires Cleared(d, m, m', gone) && d.first <= z < d.nzones
    ensures BitOf(d, z) < |m| == |m'| && m'[BitOf(d, z)] == (m[BitOf(d, z)] && z !in gone)
  {
  }

  lemma ClearedEnds(d: Disk, m': seq<bool>, gone: set<nat>)
    requires Inv(d) && Cleared(d, d.zmap, m', gone)
    ensures MapEnds(d.(zmap := m'))
  {
    hide ZonesInRange, NoSharing, MapExact;
  }

  lemma EmptiedMap(d: Disk, f: nat, zmap: seq<bool>)
    requires Inv(d) && IsFile(d, f) && Cleared(d, d.zmap, zmap, ZonesOfFile(d, f, 0))
    ensures MapEnds(Emptied(d, f, zmap)) && Shape(Emptied(d, f, zmap)) && MapExact(Emptied(d, f, zmap))
  {
    hide Inv, Cleared, Owned, OwnedBy, ZonesOfFile, Emptied, Shape;
    var d' := Emptied(d, f, zmap);
    InvShape(d);
    EmptiedShape(d, f, zmap);
    ClearedEnds(d, zmap, ZonesOfFile(d, f, 0));
    forall z | d.first <= z < d.nzones ensures z - d.first + 1 < |zmap| && (zmap[z - d.first + 1] <==> Owned(d', z)) {
      ZonesOfFileAre(d, f, z);
      EmptiedOwned(d, f, zmap, z);
      ClearedBit(d, d.zmap, zmap, ZonesOfFile(d, f, 0), z);
      MapBit(d, z);
      FirstPositive(d);
    }
  }

  lemma FirstPositive(d: Disk)
    requires Shape(d)
    ensures d.first > 0
  {
  }

  lemma EmptiedShape(d: Disk, f: nat, zmap: seq<bool>)
    requires Shape(d) && IsFile(d, f)
    ensures var d' := Emptied(d, f, zmap);
            Shape(d') && d'.first == d.first && d'.nzones == d.nzones && d'.zmap == zmap && SameSizes(d, d', f) &&
                d'.inodes[f].size == 0
  {
  }

  lemma EmptiedInv(d: Disk, f: nat, zmap: seq<bool>)
    requires Inv(d) && IsFile(d, f) && Cleared(d, d.zmap, zmap, ZonesOfFile(d, f, 0))
    ensures Inv(Emptied(d, f, zmap))
  {
    hide Inv, Owned, Cleared, MapExact, Emptied, ZoneAt, IsSlot;
    var d' := Emptied(d, f, zmap);
    InvShape(d);
    EmptiedMap(d, f, zmap);
    EmptiedShape(d, f, zmap);
    forall t | IsSlot(d', t) ensures IsSlot(d, t) && ZoneAt(d', t) == if Owner(t) == f then 0 else ZoneAt(d, t) {
      SameSlots(d, d', t);
      EmptiedZones(d, f, zmap, t);
    }
    forall t | IsSlot(d', t) && ZoneAt(d', t) != 0 ensures d.first <= ZoneAt(d', t) < d.nzones { ZoneRange(d, t); }
    forall t, u | IsSlot(d', t) && IsSlot(d', u) && ZoneAt(d', t) != 0 && ZoneAt(d', t) == ZoneAt(d', u)
      ensures t == u
    {
      OneOwner(d, t, u);
    }
    InvFrom(d');
  }

  lemma TruncateRuns(d: Disk, f: nat)
    requires Inv(d) && IsFile(d, f)
    ensures FreeZones(d, d.zmap, f, 0).Done? && Truncate(d, f) == Done(Emptied(d, f, FreeZones(d, d.zmap, f, 0).value))
    ensures Cleared(d, d.zmap, FreeZones(d, d.zmap, f, 0).value, ZonesOfFile(d, f, 0))
  {
    hide Inv, ZonesOfFile, FreeZones, Cleared, Marked;
    InvShape(d);
    OwnersMarked(d, f);
    FreeZonesClears(d, d.zmap, f, 0);
  }

  /** truncate never panics; it leaves the file empty and every other file as it was. */
  lemma TruncateIs(d: Disk, f: nat)
    requires Inv(d) && IsFile(d, f)
    ensures Truncate(d, f).Done?
    ensures var d' := Truncate(d, f).value;
            && Inv(d') && SameSizes(d, d', f) && d'.inodes[f].size == 0 && d'.first == d.first && d'.nzones == d.nzones
            && (forall t :: IsSlot(d, t) ==> IsSlot(d', t) && ZoneAt(d', t) == if Owner(t) == f then 0
                  else ZoneAt(d, t))
  {
    hide Inv, ZonesOfFile, ZoneAt, IsSlot, FreeZones, Cleared, Truncate, Emptied;
    InvShape(d);
    TruncateRuns(d, f);
    var zmap := FreeZones(d, d.zmap, f, 0).value;
    EmptiedInv(d, f, zmap);
    EmptiedShape(d, f, zmap);
    forall t | IsSlot(d, t)
      ensures IsSlot(Emptied(d, f, zmap), t) && ZoneAt(Emptied(d, f, zmap), t) == if Owner(t) == f then 0
                else ZoneAt(d, t)
    {
      EmptiedZones(d, f, zmap, t);
    }
  }

  /** truncate clears the bits of exactly the zones the file owned. */
  lemma TruncateFrees(d: Disk, f: nat, z: nat)
    requires Inv(d) && IsFile(d, f) && d.first <= z < d.nzones
    ensures Truncate(d, f).Done? && |Truncate(d, f).value.zmap| == |d.zmap| > BitOf(d, z)
    ensures Truncate(d, f).value.zmap[BitOf(d, z)] <==> d.zmap[BitOf(d, z)] && !OwnedBy(d, f, z)
  {
    hide Inv, ZonesOfFile, FreeZones, Cleared, Truncate, OwnedBy;
    InvShape(d);
    TruncateRuns(d, f);
    ClearedBit(d, d.zmap, FreeZones(d, d.zmap, f, 0).value, ZonesOfFile(d, f, 0), z);
    ZonesOfFileAre(d, f, z);
    FirstPositive(d);
  }

  /** After truncation the file reads as zeros and the others as before. */
  lemma TruncateBytes(d: Disk, f: nat, g: nat, p: nat)
    requires Inv(d) && IsFile(d, f) && IsFile(d, g) && p < LIMIT
    ensures Truncate(d, f).Done?
    ensures var d' := Truncate(d, f).value;
            Inv(d') && IsFile(d', g) && Byte(d', g, p) == if g == f then 0 else Byte(d, g, p)
  {
    hide Inv, ZoneAt, IsSlot, SlotOf, Truncate;
    InvShape(d);
    TruncateIs(d, f);
    var d' := Truncate(d, f).value;
    var s := SlotOf(g, p / BLOCK_SIZE);
    SlotOfIs(d, g, p / BLOCK_SIZE);
    ZoneRange(d, s);
    TruncateBlocks(d, f);
  }

  lemma TruncateBlocks(d: Disk, f: nat)
    requires Inv(d) && IsFile(d, f) && Truncate(d, f).Done?
    ensures Truncate(d, f).value.blocks == d.blocks
  {
  }

  /** An inode that is neither a file nor a directory keeps what it has: the first zone of a device node is the number
      of its device, and the zone of that number, if it is marked, stays marked. */
  lemma TruncateSpares(d: Disk, f: nat)
    requires Shape(d) && f < |d.inodes| && !d.inodes[f].plain
    ensures Truncate(d, f).Done?
    ensures var d' := Truncate(d, f).value; d'.inodes == d.inodes && d'.zmap == d.zmap && d'.blocks == d.blocks
  {
  }
}

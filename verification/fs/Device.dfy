/** The zone map, the blocks and the inodes of a device in memory, updated in
    place by new_block, free_block, _bmap, truncate, file_read and file_write. */
module Device {
  import opened Basics
  import opened Zones

  const BITS := 8192         // bits of a zone map block
  const Z_MAP_SLOTS := 8

  lemma FirstZeroIs(bits: seq<bool>, j: nat)
    requires j <= |bits| && (forall i :: 0 <= i < j ==> bits[i]) && (j < |bits| ==> !bits[j])
    ensures FirstZero(bits) == j
  {
  }

  lemma ZerosIsBlock()
    ensures IsBlock(Zeros())
  {
  }

  /** struct file */
  class File {
    var pos: nat
    const append: bool
    constructor (append: bool)
      ensures pos == 0 && this.append == append
    {
      this.append := append;
      pos := 0;
    }
  }

  class Device {
    const first: nat
    const nzones: nat
    const zmap: array<bool>
    const blocks: array<Block>
    const inodes: array<Inode>

    ghost function Abs(): Disk
      reads this, zmap, blocks, inodes
    {
      Disk(first, nzones, zmap[..], blocks[..], inodes[..])
    }

    /** The zone map consists of whole blocks, at most eight. */
    ghost predicate Valid()
      reads this, zmap, blocks, inodes
    {
      Shape(Abs()) && zmap.Length % BITS == 0 && zmap.Length <= Z_MAP_SLOTS * BITS
    }

    /** find_first_zero: looks through a map block, a word of 32 bits at a time. */
    method FindFirstZero(base: nat) returns (j: nat)
      requires base + BITS <= zmap.Length
      ensures j <= BITS && (forall k :: base <= k < base + j ==> zmap[k]) && (j < BITS ==> !zmap[base + j])
    {
      j := 0;
      while j < BITS
        invariant j % 32 == 0 && j <= BITS
        invariant forall i :: base <= i < base + j ==> zmap[i]
      {
        var k := 0;
        while k < 32 && zmap[base + j + k]
          invariant k <= 32
          invariant forall i :: base <= i < base + j + k ==> zmap[i]
        {
          k := k + 1;
        }
        j := j + k;
        if k < 32 { break; }
      }
    }

    /** new_block: the map blocks in turn; an absent one counts as full. */
    method NewBlock() returns (z: nat)
      requires Valid()
      modifies zmap, blocks
      ensures Valid() && (Abs(), z) == Zones.NewBlock(old(Abs()))
    {
      hide IsBlock, IsInode, FirstZero;
      var i, j := 0, BITS;
      while i < Z_MAP_SLOTS
        modifies {}
        invariant 0 <= i <= Z_MAP_SLOTS && j == BITS
        invariant forall k :: 0 <= k < i * BITS && k < zmap.Length ==> zmap[k]
      {
        if (i + 1) * BITS <= zmap.Length {
          j := FindFirstZero(i * BITS);
          if j < BITS { break; }
        }
        i := i + 1;
      }
      if i >= Z_MAP_SLOTS || j >= BITS {
        FirstZeroIs(zmap[..], zmap.Length);
        assert Abs() == old(Abs());
        return 0;
      }
      FirstZeroIs(zmap[..], i * BITS + j);
      zmap[i * BITS + j] := true;
      assert zmap[..] == old(zmap[..])[i * BITS + j := true];
      z := i * BITS + j + first - 1;
      assert Abs() == old(Abs()).(zmap := old(zmap[..])[i * BITS + j := true]);
      if z >= nzones { return 0; }
      blocks[z] := Zeros();
      ZerosIsBlock();
      assert Abs() == old(Abs()).(zmap := old(zmap[..])[i * BITS + j := true], blocks := old(blocks[..])[z := Zeros()]);
    }

    /** free_block; false stands for its panics. */
    method FreeBlock(z: nat) returns (ok: bool)
      requires Valid()
      modifies zmap
      ensures Valid()
      ensures ok == Zones.FreeBlock(old(Abs()), old(zmap[..]), z).Done?
      ensures zmap[..] == if ok then Zones.FreeBlock(old(Abs()), old(zmap[..]), z).value else old(zmap[..])
    {
      if z < first || z >= nzones { return false; }
      var j := z - (first - 1);
      if j >= zmap.Length || !zmap[j] { return false; }
      zmap[j] := false;
      assert zmap[..] == old(zmap[..])[j := false];
      ok := true;
    }

    /** _bmap; None stands for its panic. */
    method Bmap(f: nat, b: nat, create: bool) returns (r: Outcome<nat>)
      requires Valid() && f < inodes.Length && inodes[f].plain
      modifies zmap, blocks, inodes
      ensures Valid()
      ensures match Zones.Bmap(old(Abs()), f, b, create)
        case Panic => r.Panic? && Abs() == old(Abs())
        case Done((d, z)) => r == Done(z) && Abs() == d
    {
      if b >= BIGGEST { return Panic; }
      if b < 7 {
        var z := TopZone(f, b, create);
        return Done(z);
      }
      if b - 7 < 512 {
        var t := TopZone(f, 7, create);
        var z := EntryZone(t, b - 7, create);
        return Done(z);
      }
      var k := b - 519;
      ghost var (d, s) := (Abs(), Sub(Top(f, 8), k / 512));
      var t := TopZone(f, 8, create);
      var u := EntryZone(t, k / 512, create);
      SlotOfIs(d, f, b);
      assert IsSlot(d, s) && (Abs(), u) == Ensure(d, s, create);
      var z := EntryZone(u, k % 512, create);
      return Done(z);
    }

    /** An entry of the inode, made if asked for. */
    method TopZone(f: nat, i: nat, create: bool) returns (z: nat)
      requires Valid() && f < inodes.Length && inodes[f].plain && i < 9
      modifies zmap, blocks, inodes
      ensures Valid() && (Abs(), z) == Ensure(old(Abs()), Top(f, i), create)
    {
      assert IsInode(Abs().inodes[f]);
      if create && inodes[f].zone[i] == 0 {
        var fresh_zone := NewBlock();
        ghost var d1 := Abs();
        inodes[f] := inodes[f].(zone := inodes[f].zone[i := fresh_zone % 65536]);
        assert inodes[..] == d1.inodes[f := d1.inodes[f].(zone := d1.inodes[f].zone[i := fresh_zone % 65536])];
        assert Abs() == SetZone(d1, f, i, fresh_zone);
      }
      z := inodes[f].zone[i];
    }

    /** Entry i of table t, if there is a table; made if asked for. */
    method EntryZone(t: nat, i: nat, create: bool) returns (z: nat)
      requires Valid() && i < ENTRIES
      modifies zmap, blocks
      ensures Valid() && (Abs(), z) == Entry(old(Abs()), t, i, create)
    {
      if t == 0 || t >= nzones { return 0; }
      assert IsBlock(Abs().blocks[t]);
      z := Get(blocks[t], i);
      if create && z == 0 {
        z := NewBlock();
        if z != 0 {
          ghost var d1 := Abs();
          assert IsBlock(d1.blocks[t]);
          blocks[t] := Put(blocks[t], i, z);
          assert blocks[..] == d1.blocks[t := Put(d1.blocks[t], i, z)];
          assert Abs() == SetBlock(d1, t, Put(d1.blocks[t], i, z));
        }
      }
    }

    /** free_ind; false stands for a panic of free_block. */
    method FreeInd(z: nat) returns (ok: bool)
      requires Valid()
      modifies zmap
      ensures Valid() && Freed(old(Abs()), old(zmap[..]), zmap[..], z, 1, ok)
    {
      hide FreeTree, FreeEntries, Zones.FreeBlock;
      ghost var d := Abs();
      ghost var m := zmap[..];
      TreeIs(d, m, z, 1);
      if z == 0 { return true; }
      if z >= nzones { return false; }
      assert IsBlock(d.blocks[z]);
      for i := 0 to ENTRIES
        invariant Valid() && Abs() == d.(zmap := zmap[..])
        invariant FreeEntries(d, zmap[..], z, 1, i) == FreeEntries(d, m, z, 1, 0)
      {
        ghost var m1 := zmap[..];
        var e := Get(blocks[z], i);
        EntriesTurn(d, m1, z, 1, i);
        TreeIs(d, m1, e, 0);
        if e != 0 {
          FreeAgrees(Abs(), d, m1, e);
          ok := FreeBlock(e);
          if !ok { return; }
        }
      }
      EntriesEnd(d, zmap[..], z, 1);
      FreeAgrees(Abs(), d, zmap[..], z);
      ok := FreeBlock(z);
    }

    /** free_dind */
    method FreeDind(z: nat) returns (ok: bool)
      requires Valid()
      modifies zmap
      ensures Valid() && Freed(old(Abs()), old(zmap[..]), zmap[..], z, 2, ok)
    {
      hide FreeTree, FreeEntries, Zones.FreeBlock;
      ghost var d := Abs();
      ghost var m := zmap[..];
      TreeIs(d, m, z, 2);
      if z == 0 { return true; }
      if z >= nzones { return false; }
      assert IsBlock(d.blocks[z]);
      for i := 0 to ENTRIES
        invariant Valid() && Abs() == d.(zmap := zmap[..])
        invariant FreeEntries(d, zmap[..], z, 2, i) == FreeEntries(d, m, z, 2, 0)
      {
        ghost var m1 := zmap[..];
        var e := Get(blocks[z], i);
        EntriesTurn(d, m1, z, 2, i);
        TreeIs(d, m1, e, 1);
        if e != 0 {
          FreeTreeAgrees(Abs(), d, m1, e, 1);
          ok := FreeInd(e);
          if !ok { return; }
        }
      }
      EntriesEnd(d, zmap[..], z, 2);
      FreeAgrees(Abs(), d, zmap[..], z);
      ok := FreeBlock(z);
    }

    /** truncate; false stands for a panic. */
    method Truncate(f: nat) returns (ok: bool)
      requires Valid() && f < inodes.Length
      modifies zmap, inodes
      ensures match Zones.Truncate(old(Abs()), f)
        case Done(d) => ok && Abs() == d && Valid()
        case Panic => !ok
    {
      hide FreeTree, FreeZones, IsBlock;
      ok := true;
      if !inodes[f].plain { return; }
      ghost var d := Abs();
      ghost var m := zmap[..];
      for i := 0 to 7
        invariant Valid() && SameButFile(d, Abs(), f) && inodes[f].plain
        invariant forall k :: 0 <= k < 9 ==> inodes[f].zone[k] == if k < i then 0 else d.inodes[f].zone[k]
        invariant FreeZones(d, zmap[..], f, i) == FreeZones(d, m, f, 0)
      {
        ghost var m1 := zmap[..];
        ZonesTurn(d, m1, f, i);
        if inodes[f].zone[i] != 0 {
          FreeAgrees(Abs(), d, m1, inodes[f].zone[i]);
          LeafTree(d, m1, inodes[f].zone[i]);
          ok := FreeBlock(inodes[f].zone[i]);
          if !ok { return; }
          inodes[f] := inodes[f].(zone := inodes[f].zone[i := 0]);
        } else {
          LeafTree(d, m1, 0);
        }
      }
      ZonesTurn(d, zmap[..], f, 7);
      FreeTreeAgrees(Abs(), d, zmap[..], inodes[f].zone[7], 1);
      ok := FreeInd(inodes[f].zone[7]);
      if !ok { return; }
      ZonesTurn(d, zmap[..], f, 8);
      FreeTreeAgrees(Abs(), d, zmap[..], inodes[f].zone[8], 2);
      ok := FreeDind(inodes[f].zone[8]);
      if !ok { return; }
      ZonesTurn(d, zmap[..], f, 9);
      inodes[f] := inodes[f].(zone := inodes[f].zone[7 := 0][8 := 0], size := 0);
      assert inodes[f].zone == [0, 0, 0, 0, 0, 0, 0, 0, 0];
      assert inodes[..] == d.inodes[f := Inode(true, [0, 0, 0, 0, 0, 0, 0, 0, 0], 0)];
    }

    /** Copies c bytes of data from position i on into a block. */
    method CopyIn(z: nat, nr: nat, data: seq<nat>, i: nat, c: nat)
      requires z < blocks.Length && |blocks[z]| == BLOCK_SIZE && nr + c <= BLOCK_SIZE && i + c <= |data|
      modifies blocks
      ensures blocks[..] == old(blocks[..])[z := Overlay(old(blocks[z]), nr, data[i..i + c])]
    {
      ghost var (bs, b) := (blocks[..], blocks[z]);
      for k := 0 to c
        invariant |blocks[z]| == BLOCK_SIZE && blocks[..] == bs[z := blocks[z]]
        invariant forall x :: 0 <= x < BLOCK_SIZE ==>
                    blocks[z][x] == if nr <= x < nr + k then data[i + x - nr] else b[x]
      {
        blocks[z] := blocks[z][nr + k := data[i + k]];
      }
      assert blocks[z] == Overlay(b, nr, data[i..i + c]);
    }

    /** One turn of file_write, once it has its block. */
    method WriteChunk(f: nat, z: nat, pos: nat, data: seq<nat>, i: nat) returns (c: nat)
      requires Valid() && f < inodes.Length && z < nzones && i < |data| && Bytes(data)
      modifies blocks, inodes
      ensures Valid() && c == Min(BLOCK_SIZE - pos % BLOCK_SIZE, |data| - i) && 0 < c <= |data| - i
      ensures Abs() == WriteBlock(old(Abs()), f, z, pos, data[i..i + c])
    {
      hide IsInode;
      assert IsBlock(Abs().blocks[z]);
      c := Min(BLOCK_SIZE - pos % BLOCK_SIZE, |data| - i);
      if pos + c > inodes[f].size { inodes[f] := inodes[f].(size := pos + c); }
      CopyIn(z, pos % BLOCK_SIZE, data, i, c);
      assert Abs() == WriteBlock(old(Abs()), f, z, pos, data[i..i + c]);
    }

    /** file_write: the number of bytes, or -1 for none; a panic of _bmap ends it. */
    method FileWrite(f: nat, filp: File, data: seq<nat>) returns (r: Outcome<int>)
      requires Valid() && f < inodes.Length && inodes[f].plain && Bytes(data)
      modifies zmap, blocks, inodes, filp
      ensures match Write(old(Abs()), f, if filp.append then old(inodes[f].size) else old(filp.pos), data)
        case Panic => r.Panic?
        case Done((d, n)) =>
          && Valid() && Abs() == d && r == Done(if n > 0 then n else -1)
          && filp.pos == (if filp.append then old(filp.pos) else old(filp.pos) + n)
    {
      hide Write, WriteBlock, Shape, Zones.Bmap, Shifted, Min;
      var pos := if filp.append then inodes[f].size else filp.pos;
      ghost var (d, start) := (Abs(), pos);
      var i := 0;
      assert data[0..] == data;
      ShiftedTwice(Write(d, f, start, data), 0, 0);
      while i < |data|
        modifies zmap, blocks, inodes
        invariant Valid() && i <= |data| && pos == start + i && f < inodes.Length && inodes[f].plain
        invariant Write(d, f, start, data) == Shifted(Write(Abs(), f, pos, data[i..]), i)
      {
        ghost var d0 := Abs();
        var b := Bmap(f, pos / BLOCK_SIZE, true);
        WriteSteps(d0, f, pos, data[i..]);
        if b.Panic? { ShiftedDone(d0, 0, i); return Panic; }
        var z := b.value;
        if z == 0 || z >= nzones { ShiftedDone(Abs(), 0, i); break; }
        var c := WriteChunk(f, z, pos, data, i);
        SlicesOf(data, i, c);
        ShiftedTwice(Write(Abs(), f, pos + c, data[i + c..]), c, i);
        pos := pos + c;
        i := i + c;
      }
      if i == |data| { WriteEnds(Abs(), f, pos, data, i); ShiftedDone(Abs(), 0, i); }
      if !filp.append { filp.pos := pos; }
      r := Done(if i > 0 then i else -1);
    }

    /** Copies bytes out of a block, or zeros if there is none. */
    method CopyOut(z: nat, nr: nat, chars: nat) returns (chunk: seq<nat>)
      requires z < blocks.Length && |blocks[z]| == BLOCK_SIZE && nr + chars <= BLOCK_SIZE
      ensures chunk == if z == 0 then seq(chars, _ => 0) else blocks[z][nr..nr + chars]
    {
      chunk := [];
      for k := 0 to chars
        invariant |chunk| == k && forall x :: 0 <= x < k ==> chunk[x] == if z == 0 then 0 else blocks[z][nr + x]
      {
        chunk := chunk + [if z == 0 then 0 else blocks[z][nr + k]];
      }
    }

    /** file_read: the bytes go to buf. */
    method FileRead(f: nat, filp: File, count: nat) returns (r: Outcome<seq<nat>>)
      requires Valid() && f < inodes.Length && inodes[f].plain
      modifies zmap, blocks, inodes, filp
      ensures Abs() == old(Abs())
      ensures r == Read(old(Abs()), f, old(filp.pos), count)
      ensures r.Done? ==> filp.pos == old(filp.pos) + |r.value|
    {
      hide Read, IsInode, Zones.Bmap, Zones.Ensure;
      var left: nat, buf := count, [];
      ghost var d := Abs();
      PrefixNothing(Read(d, f, filp.pos, left));
      while left > 0
        modifies zmap, blocks, inodes, filp
        invariant Valid() && Abs() == d && f < inodes.Length && left <= count && filp.pos == old(filp.pos) + |buf|
        invariant Read(d, f, old(filp.pos), count) == Prefixed(buf, Read(d, f, filp.pos, left))
      {
        ReadSteps(d, f, filp.pos, left);
        var b := Bmap(f, filp.pos / BLOCK_SIZE, false);
        if b.Panic? { return Panic; }
        var z := b.value;
        if z >= nzones {
          assert buf + [] == buf;
          return Done(buf);
        }
        assert IsBlock(d.blocks[z]);
        var nr := filp.pos % BLOCK_SIZE;
        var chars := Min(BLOCK_SIZE - nr, left);
        filp.pos := filp.pos + chars;
        left := left - chars;
        var chunk := CopyOut(z, nr, chars);
        PrefixTwice(buf, chunk, Read(d, f, filp.pos, left));
        buf := buf + chunk;
      }
      ReadNothing(d, f, filp.pos);
      assert buf + [] == buf;
      r := Done(buf);
    }
  }

  lemma SlicesOf(data: seq<nat>, i: nat, c: nat)
    requires i + c <= |data|
    ensures data[i..][..c] == data[i..i + c] && data[i..][c..] == data[i + c..]
  {
  }

  lemma ShiftedTwice(r: Outcome<(Disk, nat)>, a: nat, b: nat)
    ensures Shifted(Shifted(r, a), b) == Shifted(r, b + a) && Shifted(Panic, b) == Panic && Shifted(r, 0) == r
  {
  }

  lemma ShiftedDone(d: Disk, n: nat, i: nat)
    ensures Shifted(Done((d, n)), i) == Done((d, n + i)) && Shifted(Panic, i) == Panic
  {
  }

  lemma WriteEnds(d: Disk, f: nat, pos: nat, data: seq<nat>, i: nat)
    requires Shape(d) && f < |d.inodes| && d.inodes[f].plain && Bytes(data) && i == |data|
    ensures Write(d, f, pos, data[i..]) == Done((d, 0))
  {
  }

  ghost function Prefixed(buf: seq<nat>, r: Outcome<seq<nat>>): Outcome<seq<nat>> {
    match r
    case Panic => Panic
    case Done(rest) => Done(buf + rest)
  }

  lemma PrefixNothing(r: Outcome<seq<nat>>)
    ensures Prefixed([], r) == r
  {
    if r.Done? { assert [] + r.value == r.value; }
  }

  lemma PrefixTwice(a: seq<nat>, b: seq<nat>, r: Outcome<seq<nat>>)
    ensures Prefixed(a, Prefixed(b, r)) == Prefixed(a + b, r)
  {
    if r.Done? { assert a + (b + r.value) == a + b + r.value; }
  }

  lemma ReadNothing(d: Disk, f: nat, pos: nat)
    requires Shape(d) && f < |d.inodes| && d.inodes[f].plain
    ensures Read(d, f, pos, 0) == Done([])
  {
  }

  /** Without `create`, _bmap changes nothing. */
  lemma {:induction false} LooksOnly(d: Disk, s: Slot)
    requires Shape(d) && IsSlot(d, s)
    ensures Ensure(d, s, false).0 == d
  {
    if s.Sub? { LooksOnly(d, s.parent); }
  }

  lemma ReadSteps(d: Disk, f: nat, pos: nat, count: nat)
    requires Shape(d) && f < |d.inodes| && d.inodes[f].plain && count > 0
    ensures match Zones.Bmap(d, f, pos / BLOCK_SIZE, false)
      case Panic => Read(d, f, pos, count).Panic?
      case Done((d1, z)) =>
        && d1 == d
        && if z >= d.nzones then Read(d, f, pos, count) == Done([])
           else
             var (nr, c) := (pos % BLOCK_SIZE, Min(BLOCK_SIZE - pos % BLOCK_SIZE, count));
             var chunk := if z == 0 then seq(c, _ => 0) else d.blocks[z][nr..nr + c];
             Read(d, f, pos, count) == Prefixed(chunk, Read(d, f, pos + c, count - c))
  {
    hide Ensure, IsSlot, SlotOf;
    if pos / BLOCK_SIZE < BIGGEST {
      SlotOfIs(d, f, pos / BLOCK_SIZE);
      LooksOnly(d, SlotOf(f, pos / BLOCK_SIZE));
    }
  }

  /** What freeing looks at besides the map does not change while freeing. */
  lemma FreeAgrees(d: Disk, d': Disk, m: seq<bool>, z: nat)
    requires d.first == d'.first && d.nzones == d'.nzones
    ensures Zones.FreeBlock(d, m, z) == Zones.FreeBlock(d', m, z)
  {
  }

  lemma LeafTree(d: Disk, m: seq<bool>, z: nat)
    requires Shape(d)
    ensures FreeTree(d, m, z, 0) == if z == 0 then Done(m) else Zones.FreeBlock(d, m, z)
  {
  }

  lemma TreeIs(d: Disk, m: seq<bool>, z: nat, level: nat)
    requires Shape(d)
    ensures FreeTree(d, m, z, level) ==
            if z == 0 then Done(m)
            else if level == 0 then Zones.FreeBlock(d, m, z)
            else if z >= d.nzones then Panic
            else match FreeEntries(d, m, z, level, 0) case Panic => Panic case Done(m1) => Zones.FreeBlock(d, m1, z)
  {
  }

  lemma ZonesTurn(d: Disk, m: seq<bool>, f: nat, i: nat)
    requires Shape(d) && f < |d.inodes| && i <= 9
    ensures FreeZones(d, m, f, i) ==
            if i == 9 then Done(m)
            else match FreeTree(d, m, d.inodes[f].zone[i], if i < 7 then 0 else i - 6)
              case Panic => Panic
              case Done(m1) => FreeZones(d, m1, f, i + 1)
  {
  }

  lemma EntriesTurn(d: Disk, m: seq<bool>, t: nat, level: nat, i: nat)
    requires Shape(d) && t < d.nzones && level > 0 && i < ENTRIES
    ensures FreeEntries(d, m, t, level, i) ==
            match FreeTree(d, m, Get(d.blocks[t], i), level - 1)
              case Panic => Panic
              case Done(m1) => FreeEntries(d, m1, t, level, i + 1)
  {
  }

  lemma EntriesEnd(d: Disk, m: seq<bool>, t: nat, level: nat)
    requires Shape(d) && t < d.nzones && level > 0
    ensures FreeEntries(d, m, t, level, ENTRIES) == Done(m)
  {
  }

  lemma {:induction false} FreeTreeAgrees(d: Disk, d': Disk, m: seq<bool>, z: nat, level: nat)
    requires Shape(d) && Shape(d') && d.first == d'.first && d.nzones == d'.nzones && d.blocks == d'.blocks
    ensures FreeTree(d, m, z, level) == FreeTree(d', m, z, level)
    decreases level, ENTRIES + 1
  {
    if z != 0 && level > 0 && z < d.nzones { FreeEntriesAgrees(d, d', m, z, level, 0); }
  }

  lemma {:induction false} FreeEntriesAgrees(d: Disk, d': Disk, m: seq<bool>, t: nat, level: nat, i: nat)
    requires Shape(d) && Shape(d') && d.first == d'.first && d.nzones == d'.nzones && d.blocks == d'.blocks
    requires t < d.nzones && level > 0 && i <= ENTRIES
    ensures FreeEntries(d, m, t, level, i) == FreeEntries(d', m, t, level, i)
    decreases level, ENTRIES - i
  {
    if i < ENTRIES {
      var e := Get(d.blocks[t], i);
      FreeTreeAgrees(d, d', m, e, level - 1);
      var r := FreeTree(d, m, e, level - 1);
      if r.Done? { FreeEntriesAgrees(d, d', r.value, t, level, i + 1); }
    }
  }

  /** Only the map and inode f may differ. */
  ghost predicate SameButFile(d: Disk, d': Disk, f: nat) {
    && d'.first == d.first && d'.nzones == d.nzones && d'.blocks == d.blocks && |d'.inodes| == |d.inodes|
    && (forall g :: 0 <= g < |d.inodes| && g != f ==> d'.inodes[g] == d.inodes[g])
  }

  /** The outcome of freeing, and the map it leaves. */
  ghost predicate Freed(d: Disk, m: seq<bool>, m': seq<bool>, z: nat, level: nat, ok: bool)
    requires Shape(d)
  {
    match FreeTree(d, m, z, level)
    case Done(r) => ok && m' == r
    case Panic => !ok
  }
}

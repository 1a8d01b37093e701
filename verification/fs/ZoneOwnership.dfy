/** Every zone has exactly one owner, and the zone map marks exactly the owned
    zones: kept by making blocks, by writing and by truncation. */
module ZoneOwnership {
  import opened Zones

  ghost predicate Owned(d: Disk, z: nat)
    requires Shape(d)
  {
    exists s :: IsSlot(d, s) && ZoneAt(d, s) == z
  }

  ghost predicate ZonesInRange(d: Disk)
    requires Shape(d)
  {
    forall s :: IsSlot(d, s) && ZoneAt(d, s) != 0 ==> d.first <= ZoneAt(d, s) < d.nzones
  }

  /** No zone is pointed to from two places. */
  ghost predicate NoSharing(d: Disk)
    requires Shape(d)
  {
    forall s, t :: IsSlot(d, s) && IsSlot(d, t) && ZoneAt(d, s) != 0 && ZoneAt(d, s) == ZoneAt(d, t) ==> s == t
  }

  /** The zone map has a bit for every zone, and bit 0, which stands for none, is set. */
  ghost predicate MapEnds(d: Disk) { |d.zmap| > d.nzones - d.first >= 0 && d.zmap[0] }

  ghost predicate MapExact(d: Disk)
    requires Shape(d) && MapEnds(d)
  {
    forall z :: d.first <= z < d.nzones ==> (d.zmap[z - d.first + 1] <==> Owned(d, z))
  }

  ghost predicate Inv(d: Disk) {
    Shape(d) && ZonesInRange(d) && NoSharing(d) && MapEnds(d) && MapExact(d)
  }

  // ---- Tables ----

  lemma GetPut(b: Block, i: nat, j: nat, v: nat)
    requires IsBlock(b) && i < ENTRIES && j < ENTRIES && v < 65536
    ensures Get(Put(b, i, v), j) == if i == j then v else Get(b, j)
    ensures IsBlock(Put(b, i, v))
  {
  }

  lemma GetZero(i: nat)
    requires i < ENTRIES
    ensures Get(Zeros(), i) == 0
  {
  }

  // ---- new_block ----

  /** The same bits for all zones; those past the last zone may differ. */
  ghost predicate SameBits(d: Disk, zmap: seq<bool>)
    requires MapEnds(d)
  {
    |zmap| == |d.zmap| && forall j :: 0 <= j <= d.nzones - d.first ==> zmap[j] == d.zmap[j]
  }

  /** new_block takes the first free zone, clears it and marks it; there is none
      exactly when it returns 0, and then nothing changes but a bit that stands for no zone. */
  lemma NewBlockIs(d: Disk)
    requires Inv(d)
    ensures var (d1, z) := NewBlock(d);
            if z == 0 then d1 == d.(zmap := d1.zmap) && SameBits(d, d1.zmap) && forall y :: d.first <= y < d.nzones ==>
                Owned(d, y)
            else && d.first <= z < d.nzones && !Owned(d, z) && (forall y :: d.first <= y < z ==> Owned(d, y))
                 && d1 == d.(zmap := d.zmap[z - d.first + 1 := true], blocks := d.blocks[z := Zeros()])
  {
    var j := FirstZero(d.zmap);
    if j == |d.zmap| {
      forall y | d.first <= y < d.nzones ensures Owned(d, y) { assert d.zmap[y - d.first + 1]; }
    } else {
      assert j != 0;
      forall y | d.first <= y < j + d.first - 1 && y < d.nzones ensures Owned(d, y) { assert d.zmap[y - d.first + 1]; }
    }
  }

  /** new_block sets a bit and yet returns 0 exactly when all zones are taken and a bit past the last one is clear. */
  lemma NewBlockLeaks(d: Disk)
    requires Shape(d) && MapEnds(d)
    ensures NewBlock(d).1 == 0 && NewBlock(d).0 != d <==>
            && (forall j :: 1 <= j <= d.nzones - d.first ==> d.zmap[j])
            && (exists j :: d.nzones - d.first < j < |d.zmap| && !d.zmap[j])
  {
    var j := FirstZero(d.zmap);
    if j < |d.zmap| { assert d.zmap[j := true][j] != d.zmap[j]; }
  }

  /** It happens: two zones, both taken, and a map of four bits. */
  lemma LeakyDisk(b: Block)
    requires IsBlock(b)
    ensures var d := Disk(1, 2, [true, true, false, false], [b, b], []);
            Shape(d) && MapEnds(d) && NewBlock(d) == (d.(zmap := [true, true, true, false]), 0)
  {
    var d := Disk(1, 2, [true, true, false, false], [b, b], []);
    assert FirstZero(d.zmap[2..]) == 0;
    assert FirstZero(d.zmap[1..]) == 1;
    assert d.zmap[2 := true] == [true, true, true, false];
  }

  /** free_block undoes new_block. */
  lemma FreeUndoesNew(d: Disk)
    requires Inv(d) && NewBlock(d).1 != 0
    ensures FreeBlock(d, NewBlock(d).0.zmap, NewBlock(d).1) == Done(d.zmap)
  {
    hide ZonesInRange, NoSharing, MapExact, Owned;
    var j := FirstZero(d.zmap);
    assert d.zmap[j := true][j := false] == d.zmap;
  }

  /** free_block clears the bit of a zone that is marked, and panics for every other number. */
  lemma FreeBlockIs(d: Disk, z: nat)
    requires Inv(d)
    ensures var (r, j) := (FreeBlock(d, d.zmap, z), z as int - d.first + 1);
            if d.first <= z < d.nzones && j < |d.zmap| && d.zmap[j]
            then r.Done? && |r.value| == |d.zmap| && !r.value[j] && forall k :: 0 <= k < |d.zmap| && k != j ==>
                   r.value[k] == d.zmap[k]
            else r.Panic?
  {
  }

  // ---- A new zone for one place ----

  ghost predicate ParentThere(d: Disk, s: Slot)
    requires Shape(d) && IsSlot(d, s)
  {
    s.Sub? ==> ZoneAt(d, s.parent) != 0
  }

  /** Place s gets the zone that new_block made. */
  ghost function Given(d: Disk, s: Slot): Disk
    requires Inv(d) && IsSlot(d, s) && ParentThere(d, s)
  {
    var (d1, z) := NewBlock(d);
    match s
    case Top(f, i) => SetZone(d1, f, i, z)
    case Sub(p, i) => SetBlock(d1, ZoneAt(d, p), Put(d1.blocks[ZoneAt(d, p)], i, z))
  }

  lemma GivenShape(d: Disk, s: Slot)
    requires Inv(d) && IsSlot(d, s) && ParentThere(d, s) && NewBlock(d).1 != 0
    ensures var d' := Given(d, s);
            && Shape(d') && d'.first == d.first && d'.nzones == d.nzones && |d'.inodes| == |d.inodes|
            && (forall f :: 0 <= f < |d.inodes| ==>
                  d'.inodes[f].plain == d.inodes[f].plain && d'.inodes[f].size == d.inodes[f].size)
            && d'.zmap == d.zmap[NewBlock(d).1 - d.first + 1 := true]
  {
    hide ZonesInRange, NoSharing, MapExact, Owned, Put;
    NewBlockIs(d);
    if s.Sub? {
      var t := ZoneAt(d, s.parent);
      ZoneRange(d, s.parent);
      GetPut(NewBlock(d).0.blocks[t], s.i, 0, NewBlock(d).1);
    }
  }

  lemma ZoneRange(d: Disk, s: Slot)
    requires Inv(d) && IsSlot(d, s)
    ensures ZoneAt(d, s) == 0 || (d.first <= ZoneAt(d, s) < d.nzones && Owned(d, ZoneAt(d, s)))
  {
    hide NoSharing, MapExact, Shape, MapEnds;
  }

  lemma OneOwner(d: Disk, s: Slot, t: Slot)
    requires Inv(d) && IsSlot(d, s) && IsSlot(d, t) && ZoneAt(d, s) != 0 && ZoneAt(d, s) == ZoneAt(d, t)
    ensures s == t
  {
    hide ZonesInRange, MapExact, Shape, MapEnds;
  }

  lemma {:induction false} SameSlots(d: Disk, d': Disk, s: Slot)
    requires |d'.inodes| == |d.inodes| && forall f :: 0 <= f < |d.inodes| ==> d'.inodes[f].plain == d.inodes[f].plain
    ensures IsSlot(d', s) == IsSlot(d, s)
  {
    if s.Sub? { SameSlots(d, d', s.parent); }
  }

  /** Giving a place a zone changes what that place points to, and nothing else. */
  lemma {:induction false} GivenZones(d: Disk, s: Slot, t: Slot)
    requires Inv(d) && IsSlot(d, s) && ParentThere(d, s) && ZoneAt(d, s) == 0 && NewBlock(d).1 != 0 && IsSlot(d, t)
    ensures Shape(Given(d, s)) && IsSlot(Given(d, s), t)
    ensures ZoneAt(Given(d, s), t) == if t == s then NewBlock(d).1 else ZoneAt(d, t)
    decreases t
  {
    hide Inv, Put, Get, Owned;
    GivenShape(d, s);
    SameSlots(d, Given(d, s), t);
    InvShape(d);
    NewBlockIs(d);
    match t
    case Top(g, k) =>
    case Sub(q, k) =>
      GivenZones(d, s, q);
      ZoneRange(d, q);
      if q == s {
        GetZero(k);
        if s.Sub? { ZoneRange(d, s.parent); }
      } else if ZoneAt(d, q) != 0 && s.Sub? {
        ZoneRange(d, s.parent);
        if ZoneAt(d, q) == ZoneAt(d, s.parent) { OneOwner(d, q, s.parent); }
        GetPut(d.blocks[ZoneAt(d, s.parent)], s.i, k, NewBlock(d).1);
      }
  }

  lemma InvShape(d: Disk)
    requires Inv(d)
    ensures Shape(d) && MapEnds(d) && forall z :: 0 <= z < d.nzones ==> IsBlock(d.blocks[z])
  {
  }

  /** Ownership says everything there is to say about the zone map. */
  lemma MapFromOwners(d: Disk, d': Disk, z: nat)
    requires Inv(d) && Shape(d') && d'.first == d.first <= z < d'.nzones == d.nzones
    requires d'.zmap == d.zmap[z - d.first + 1 := true]
    requires forall y :: d.first <= y < d.nzones ==> (Owned(d', y) <==> Owned(d, y) || y == z)
    ensures MapEnds(d') && MapExact(d')
  {
    hide ZonesInRange, NoSharing, Shape, Owned;
  }

  lemma GivenKeeps(d: Disk, s: Slot)
    requires Inv(d) && IsSlot(d, s) && ParentThere(d, s) && ZoneAt(d, s) == 0 && NewBlock(d).1 != 0
    ensures Inv(Given(d, s))
  {
    hide Inv, Given, Owned, NewBlock;
    InvShape(d);
    var (d', z) := (Given(d, s), NewBlock(d).1);
    NewBlockIs(d);
    GivenShape(d, s);
    forall t | IsSlot(d', t) ensures IsSlot(d, t) && ZoneAt(d', t) == if t == s then z else ZoneAt(d, t) {
      SameSlots(d, d', t);
      GivenZones(d, s, t);
    }
    forall t | IsSlot(d', t) && ZoneAt(d', t) != 0 ensures d.first <= ZoneAt(d', t) < d.nzones { ZoneRange(d, t); }
    forall t, u | IsSlot(d', t) && IsSlot(d', u) && ZoneAt(d', t) != 0 && ZoneAt(d', t) == ZoneAt(d', u)
      ensures t == u
    {
      ZoneRange(d, t);
      ZoneRange(d, u);
      if t != s && u != s { OneOwner(d, t, u); }
    }
    forall y | d.first <= y < d.nzones ensures Owned(d', y) <==> Owned(d, y) || y == z { GivenOwned(d, s, y); }
    MapFromOwners(d, d', z);
    assert Inv(d') by { InvFrom(d'); }
  }

  lemma InvFrom(d: Disk)
    requires Shape(d) && ZonesInRange(d) && NoSharing(d) && MapEnds(d) && MapExact(d)
    ensures Inv(d)
  {
  }

  lemma GivenOwned(d: Disk, s: Slot, y: nat)
    requires Inv(d) && IsSlot(d, s) && ParentThere(d, s) && ZoneAt(d, s) == 0 && NewBlock(d).1 != 0
    requires d.first <= y < d.nzones
    ensures Shape(Given(d, s)) && (Owned(Given(d, s), y) <==> Owned(d, y) || y == NewBlock(d).1)
  {
    hide Inv, Given, NewBlock;
    var d' := Given(d, s);
    GivenShape(d, s);
    GivenZones(d, s, s);
    InvShape(d);
    if Owned(d, y) {
      var t :| IsSlot(d, t) && ZoneAt(d, t) == y;
      GivenZones(d, s, t);
      assert IsSlot(d', t) && ZoneAt(d', t) == y;
    }
    if Owned(d', y) {
      var t :| IsSlot(d', t) && ZoneAt(d', t) == y;
      SameSlots(d, d', t);
      GivenZones(d, s, t);
    }
  }

  // ---- What the blocks of files hold ----

  /** The contents of the block a place points to; a missing one holds zeros. */
  ghost function DataAt(d: Disk, s: Slot): (b: Block)
    requires Inv(d) && IsSlot(d, s)
    ensures |b| == BLOCK_SIZE
  {
    ZoneRange(d, s);
    if ZoneAt(d, s) == 0 then Zeros() else d.blocks[ZoneAt(d, s)]
  }

  /** d' differs from d only by blocks made on the way to place s, all of them zero. */
  ghost predicate Grown(d: Disk, d': Disk, s: Slot) {
    && Inv(d) && Inv(d') && d'.first == d.first && d'.nzones == d.nzones && |d'.inodes| == |d.inodes|
    && (forall f :: 0 <= f < |d.inodes| ==>
          d'.inodes[f].plain == d.inodes[f].plain && d'.inodes[f].size == d.inodes[f].size)
    && (forall t :: IsSlot(d, t) ==> IsSlot(d', t))
    && (forall t :: IsSlot(d, t) && ZoneAt(d, t) != 0 ==> ZoneAt(d', t) == ZoneAt(d, t))
    && (forall t :: IsSlot(d, t) && Level(t) == 0 ==> DataAt(d', t) == DataAt(d, t))
    && (forall t :: IsSlot(d, t) && Level(t) == 0 && t != s ==> ZoneAt(d', t) == ZoneAt(d, t))
    && (forall t :: IsSlot(d, t) && Owner(t) != Owner(s) ==> ZoneAt(d', t) == ZoneAt(d, t))
  }

  lemma GrownRefl(d: Disk, s: Slot)
    requires Inv(d)
    ensures Grown(d, d, s)
  {
    hide Inv;
  }

  /** What places point to does not depend on the zone map. */
  lemma {:induction false} MapZones(d: Disk, zmap: seq<bool>, s: Slot)
    requires Shape(d)
    ensures var d' := d.(zmap := zmap);
            Shape(d') && IsSlot(d', s) == IsSlot(d, s) && (IsSlot(d, s) ==> ZoneAt(d', s) == ZoneAt(d, s))
  {
    if s.Sub? { MapZones(d, zmap, s.parent); }
  }

  lemma MapOwned(d: Disk, zmap: seq<bool>, z: nat)
    requires Shape(d)
    ensures Shape(d.(zmap := zmap)) && Owned(d.(zmap := zmap), z) == Owned(d, z)
  {
    hide ZoneAt, IsSlot;
    var d' := d.(zmap := zmap);
    forall s ensures IsSlot(d', s) == IsSlot(d, s) && (IsSlot(d, s) ==> ZoneAt(d', s) == ZoneAt(d, s)) {
      MapZones(d, zmap, s);
    }
  }

  /** Bits that stand for no zone make no difference. */
  lemma OtherBits(d: Disk, zmap: seq<bool>, s: Slot)
    requires Inv(d) && MapEnds(d) && SameBits(d, zmap)
    ensures Grown(d, d.(zmap := zmap), s)
    ensures forall t :: IsSlot(d, t) ==> ZoneAt(d.(zmap := zmap), t) == ZoneAt(d, t)
    ensures forall y :: d.first <= y < d.nzones ==> (Owned(d.(zmap := zmap), y) <==> Owned(d, y))
  {
    hide ZoneAt, IsSlot, Owned;
    var d' := d.(zmap := zmap);
    forall t ensures IsSlot(d', t) == IsSlot(d, t) && (IsSlot(d, t) ==> ZoneAt(d', t) == ZoneAt(d, t)) {
      MapZones(d, zmap, t);
    }
    forall y ensures Owned(d', y) <==> Owned(d, y) { MapOwned(d, zmap, y); }
  }

  lemma GrownTrans(d: Disk, d1: Disk, d2: Disk, p: Slot, s: Slot)
    requires Grown(d, d1, p) && Grown(d1, d2, s) && Level(p) > 0 && Owner(p) == Owner(s)
    ensures Grown(d, d2, s)
  {
    hide Inv, ZoneAt, DataAt;
  }

  lemma GivenData(d: Disk, s: Slot, t: Slot)
    requires Inv(d) && IsSlot(d, s) && ParentThere(d, s) && ZoneAt(d, s) == 0 && NewBlock(d).1 != 0
    requires IsSlot(d, t) && Level(t) == 0
    ensures Inv(Given(d, s)) && IsSlot(Given(d, s), t) && DataAt(Given(d, s), t) == DataAt(d, t)
  {
    hide Inv, Put, Owned;
    GivenKeeps(d, s);
    GivenZones(d, s, t);
    NewBlockIs(d);
    InvShape(d);
    ZoneRange(d, t);
    if s.Sub? {
      ZoneRange(d, s.parent);
      if ZoneAt(d, t) == ZoneAt(d, s.parent) { OneOwner(d, t, s.parent); }
    }
  }

  lemma GivenGrown(d: Disk, s: Slot)
    requires Inv(d) && IsSlot(d, s) && ParentThere(d, s) && ZoneAt(d, s) == 0 && NewBlock(d).1 != 0
    ensures Grown(d, Given(d, s), s) && ZoneAt(Given(d, s), s) == NewBlock(d).1
  {
    hide Inv, Given, NewBlock, DataAt, Shape;
    InvShape(d);
    GivenKeeps(d, s);
    GivenShape(d, s);
    GivenZones(d, s, s);
    forall t | IsSlot(d, t)
      ensures IsSlot(Given(d, s), t) && ZoneAt(Given(d, s), t) == if t == s then NewBlock(d).1 else ZoneAt(d, t)
    {
      GivenZones(d, s, t);
    }
    forall t | IsSlot(d, t) && Level(t) == 0 ensures DataAt(Given(d, s), t) == DataAt(d, t) { GivenData(d, s, t); }
  }

  lemma LevelOfParent(d: Disk, s: Slot)
    requires IsSlot(d, s) && s.Sub?
    ensures IsSlot(d, s.parent) && Level(s.parent) > 0 && Owner(s.parent) == Owner(s)
  {
  }

  /** _bmap keeps every zone owned once and every file's contents, and its answer is where the block is:
      0 only if it was not asked to make one, or the disk is full. */
  lemma {:induction false} EnsureKeeps(d: Disk, s: Slot, create: bool)
    requires Inv(d) && IsSlot(d, s)
    ensures var (d', z) := Ensure(d, s, create);
            && Grown(d, d', s) && (!create ==> d' == d)
            && z == ZoneAt(d', s)
            && (create && z == 0 ==> forall y :: d.first <= y < d.nzones ==> Owned(d', y))
    decreases s
  {
    hide Inv, Grown, DataAt, Owned, NewBlock;
    InvShape(d);
    match s
    case Top(f, i) =>
      if create && d.inodes[f].zone[i] == 0 { MakeTop(d, s); } else { GrownRefl(d, s); }
    case Sub(p, i) =>
      var (d1, t) := Ensure(d, p, create);
      EnsureKeeps(d, p, create);
      LevelOfParent(d, s);
      GrownInv(d, d1, p, s);
      InvShape(d1);
      ZoneRange(d1, p);
      if t == 0 {
        FirstTwo(d, d1, p, s);
      } else if create && ZoneAt(d1, s) == 0 {
        MakeSub(d1, s);
        GrownTrans(d, d1, Ensure(d, s, create).0, p, s);
      } else {
        FirstTwo(d, d1, p, s);
      }
  }

  lemma FirstTwo(d: Disk, d1: Disk, p: Slot, s: Slot)
    requires Grown(d, d1, p) && Level(p) > 0 && Owner(p) == Owner(s)
    ensures Grown(d, d1, s)
  {
    hide Inv, DataAt, ZoneAt;
  }

  lemma GrownInv(d: Disk, d1: Disk, p: Slot, s: Slot)
    requires Grown(d, d1, p) && IsSlot(d, s)
    ensures Inv(d1) && IsSlot(d1, s) && d1.first == d.first && d1.nzones == d.nzones
  {
    hide Inv, ZoneAt, DataAt;
  }

  lemma SetSame(d: Disk, f: nat, i: nat)
    requires f < |d.inodes| && i < |d.inodes[f].zone| && d.inodes[f].zone[i] == 0
    ensures SetZone(d, f, i, 0) == d
  {
    assert d.inodes[f].zone[i := 0] == d.inodes[f].zone;
    assert d.inodes[f := d.inodes[f]] == d.inodes;
  }

  lemma MakeTop(d: Disk, s: Slot)
    requires Inv(d) && IsSlot(d, s) && s.Top? && ZoneAt(d, s) == 0
    ensures var (d', z) := Ensure(d, s, true);
            Grown(d, d', s) && z == ZoneAt(d', s) && (z == 0 ==> forall y :: d.first <= y < d.nzones ==> Owned(d', y))
  {
    hide Inv, Grown, Owned, NewBlock;
    InvShape(d);
    NewBlockIs(d);
    if NewBlock(d).1 != 0 {
      GivenGrown(d, s);
    } else {
      SetSame(NewBlock(d).0, s.f, s.i);
      OtherBits(d, NewBlock(d).0.zmap, s);
    }
  }

  lemma MakeSub(d: Disk, s: Slot)
    requires Inv(d) && IsSlot(d, s) && s.Sub? && ParentThere(d, s) && ZoneAt(d, s) == 0
    ensures var t := ZoneAt(d, s.parent);
            && t < d.nzones
            && var (d1, z) := NewBlock(d);
               var d' := if z == 0 then d1 else SetBlock(d1, t, Put(d1.blocks[t], s.i, z));
               Grown(d, d', s) && z == ZoneAt(d', s) && (z == 0 ==> forall y :: d.first <= y < d.nzones ==>
                   Owned(d', y))
  {
    hide Inv, Grown, Owned, NewBlock, Put;
    InvShape(d);
    NewBlockIs(d);
    ZoneRange(d, s.parent);
    if NewBlock(d).1 != 0 { GivenGrown(d, s); } else { OtherBits(d, NewBlock(d).0.zmap, s); }
  }
}

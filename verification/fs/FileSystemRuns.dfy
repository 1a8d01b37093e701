/** Whole runs of a file system: any sequence of writes, truncations and block
    creations, on any files, acts on the contents of the files as on separate
    sequences of bytes. Each call is one step here: what calls that overlap can
    do to each other is in module ZoneRaces. */
module FileSystemRuns {
  import opened Zones
  import opened ZoneOwnership
  import opened FileContents
  import opened DiskSpace

  /** No file is larger than an inode can map, and past its end a file reads as zeros. */
  ghost predicate Tidy(d: Disk)
    requires Inv(d)
  {
    && (forall f: nat :: IsFile(d, f) ==> d.inodes[f].size <= LIMIT)
    && (forall f: nat, p: nat :: IsFile(d, f) && d.inodes[f].size <= p < LIMIT ==> Byte(d, f, p) == 0)
  }

  /** The contents of a file, up to its size. */
  ghost function Contents(d: Disk, f: nat): (c: seq<nat>)
    requires Inv(d) && f < |d.inodes|
  {
    if IsFile(d, f) && d.inodes[f].size <= LIMIT
    then seq(d.inodes[f].size, p requires 0 <= p < d.inodes[f].size => Byte(d, f, p))
    else []
  }

  ghost function View(d: Disk): (v: seq<seq<nat>>)
    requires Inv(d)
  {
    seq(|d.inodes|, f requires 0 <= f < |d.inodes| => Contents(d, f))
  }

  // ---- The simple form: sequences of bytes ----

  function ByteOf(c: seq<nat>, p: nat): nat { if p < |c| then c[p] else 0 }

  /** data at position pos; a gap is filled with zeros. */
  function Updated(c: seq<nat>, pos: nat, data: seq<nat>): (r: seq<nat>) {
    if data == [] then c
    else seq(if pos + |data| > |c| then pos + |data| else |c|,
             p requires p >= 0 => if pos <= p < pos + |data| then data[p - pos] else ByteOf(c, p))
  }

  function Slice(c: seq<nat>, pos: nat, count: nat): seq<nat> {
    seq<nat>(count, k requires k >= 0 => ByteOf(c, pos + k))
  }

  datatype FileOp = Update(f: nat, pos: nat, data: seq<nat>) | Clear(f: nat) | Nothing

  function Replay(files: seq<seq<nat>>, op: FileOp): (r: seq<seq<nat>>)
    ensures |r| == |files|
  {
    match op
    case Update(f, pos, data) => if f < |files| then files[f := Updated(files[f], pos, data)] else files
    case Clear(f) => if f < |files| then files[f := []] else files
    case Nothing => files
  }

  function ReplayAll(files: seq<seq<nat>>, ops: seq<FileOp>): seq<seq<nat>>
    decreases |ops|
  {
    if ops == [] then files else ReplayAll(Replay(files, ops[0]), ops[1..])
  }

  // ---- One step ----

  datatype Event = WriteAt(f: nat, pos: nat, data: seq<nat>) | Empty(f: nat) | CreateBlock(f: nat, b: nat)

  /** A call on a file that does not end in a panic; see DiskSpace.WritePanics. */
  ghost predicate Enabled(d: Disk, e: Event)
    requires Shape(d)
  {
    match e
    case WriteAt(f, pos, data) => IsFile(d, f) && Bytes(data) && !Write(d, f, pos, data).Panic?
    case Empty(f) => IsFile(d, f)
    case CreateBlock(f, b) => IsFile(d, f) && b < BIGGEST
  }

  ghost function Apply(d: Disk, e: Event): (r: Disk)
    requires Shape(d) && Enabled(d, e)
    ensures Shape(r)
  {
    match e
    case WriteAt(f, pos, data) => (match Write(d, f, pos, data) case Done(r) => r.0 case Panic => d)
    case Empty(f) => (match Truncate(d, f) case Done(d1) => d1 case Panic => d)
    case CreateBlock(f, b) => (match Bmap(d, f, b, true) case Done(r) => r.0 case Panic => d)
  }

  /** What the step does to the files; a full disk cuts a write short. */
  ghost function Effect(d: Disk, e: Event): FileOp
    requires Shape(d) && Enabled(d, e)
  {
    match e
    case WriteAt(f, pos, data) =>
      (match Write(d, f, pos, data)
       case Done(r) => Update(f, pos, data[..r.1])
       case Panic => Nothing)
    case Empty(f) => Clear(f)
    case CreateBlock(_, _) => Nothing
  }

  lemma WriteRefines(d: Disk, f: nat, pos: nat, data: seq<nat>)
    requires Inv(d) && Tidy(d) && IsFile(d, f) && Bytes(data) && !Write(d, f, pos, data).Panic?
    ensures var (d', n) := Write(d, f, pos, data).value;
            && Inv(d') && Tidy(d') && n <= |data| && (n < |data| ==> Full(d'))
            && View(d') == Replay(View(d), Update(f, pos, data[..n]))
  {
    hide Inv, Byte, Write, Full;
    InvShape(d);
    WriteIsUpdate(d, f, pos, data);
    var (d', n) := Write(d, f, pos, data).value;
    WrittenRefines(d, d', f, pos, data, n);
  }

  lemma WrittenRefines(d: Disk, d': Disk, f: nat, pos: nat, data: seq<nat>, n: nat)
    requires Written(d, d', f, pos, data, n) && Tidy(d) && (n > 0 ==> pos + n <= LIMIT)
    ensures Tidy(d') && View(d') == Replay(View(d), Update(f, pos, data[..n]))
  {
    hide Inv, Byte, Contents, Tidy, Updated;
    WrittenTidy(d, d', f, pos, data, n);
    forall g | 0 <= g < |d.inodes|
      ensures Contents(d', g) == if g == f then Updated(Contents(d, f), pos, data[..n]) else Contents(d, g)
    {
      WrittenContents(d, d', f, pos, data, n, g);
    }
  }

  lemma WrittenTidy(d: Disk, d': Disk, f: nat, pos: nat, data: seq<nat>, n: nat)
    requires Written(d, d', f, pos, data, n) && Tidy(d) && (n > 0 ==> pos + n <= LIMIT)
    ensures Tidy(d')
  {
    hide Inv, Byte;
  }

  lemma WrittenContents(d: Disk, d': Disk, f: nat, pos: nat, data: seq<nat>, n: nat, g: nat)
    requires Written(d, d', f, pos, data, n) && Tidy(d) && (n > 0 ==> pos + n <= LIMIT) && g < |d.inodes|
    ensures Contents(d', g) == if g == f then Updated(Contents(d, f), pos, data[..n]) else Contents(d, g)
  {
    hide Inv, Byte;
    WrittenTidy(d, d', f, pos, data, n);
  }

  lemma TruncateRefines(d: Disk, f: nat)
    requires Inv(d) && Tidy(d) && IsFile(d, f)
    ensures Truncate(d, f).Done?
    ensures var d' := Truncate(d, f).value; Inv(d') && Tidy(d') && View(d') == Replay(View(d), Clear(f))
  {
    hide Inv, Byte, Truncate, ZoneAt, IsSlot;
    InvShape(d);
    TruncateIs(d, f);
    var d' := Truncate(d, f).value;
    forall g: nat, p: nat | IsFile(d, g) && p < LIMIT ensures Byte(d', g, p) == if g == f then 0 else Byte(d, g, p) {
      TruncateBytes(d, f, g, p);
    }
    SameViews(d, d', f, true);
  }

  /** The same bytes and sizes, except that file f may have become empty. */
  lemma SameViews(d: Disk, d': Disk, f: nat, emptied: bool)
    requires Inv(d) && Inv(d') && Tidy(d) && IsFile(d, f) && SameSizes(d, d', f)
    requires d'.inodes[f].size == if emptied then 0 else d.inodes[f].size
    requires forall g: nat, p: nat :: IsFile(d, g) && p < LIMIT ==>
               Byte(d', g, p) == if emptied && g == f then 0 else Byte(d, g, p)
    ensures Tidy(d') && View(d') == if emptied then Replay(View(d), Clear(f)) else View(d)
  {
    hide Inv, Byte;
    forall g | 0 <= g < |d.inodes| ensures Contents(d', g) == if emptied && g == f then [] else Contents(d, g) {}
  }

  lemma CreateRefines(d: Disk, f: nat, b: nat)
    requires Inv(d) && Tidy(d) && IsFile(d, f) && b < BIGGEST
    ensures Bmap(d, f, b, true).Done?
    ensures var d' := Bmap(d, f, b, true).value.0; Inv(d') && Tidy(d') && View(d') == View(d)
  {
    hide Inv, Byte, Ensure, Grown, ZoneAt, IsSlot;
    InvShape(d);
    SlotOfIs(d, f, b);
    EnsureKeeps(d, SlotOf(f, b), true);
    var d' := Ensure(d, SlotOf(f, b), true).0;
    GrownSizes(d, d', SlotOf(f, b));
    forall g: nat, p: nat | IsFile(d, g) && p < LIMIT ensures Byte(d', g, p) == Byte(d, g, p) {
      GrownBytes(d, d', SlotOf(f, b), g, p);
    }
    SameViews(d, d', f, false);
  }

  /** Every step keeps ownership, and does to the files what its effect does to sequences of bytes. */
  lemma StepRefines(d: Disk, e: Event)
    requires Inv(d) && Tidy(d) && Enabled(d, e)
    ensures Inv(Apply(d, e)) && Tidy(Apply(d, e)) && View(Apply(d, e)) == Replay(View(d), Effect(d, e))
  {
    hide Inv, Tidy, View, Write, Truncate, Bmap, Replay, Full;
    InvShape(d);
    match e
    case WriteAt(f, pos, data) => WriteRefines(d, f, pos, data);
    case Empty(f) => TruncateRefines(d, f);
    case CreateBlock(f, b) =>
      CreateRefines(d, f, b);
      ReplayNothing(View(d));
  }

  /** Files can be truncated, blocks created, and data written within the largest file, at any time; a block that is
      created is there afterwards if and only if there are free zones for all that is missing on the way to it. */
  lemma CallsHappen(d: Disk, f: nat, pos: nat, data: seq<nat>, b: nat)
    requires Inv(d) && Tidy(d) && IsFile(d, f) && b < BIGGEST
    ensures Shape(d) && Enabled(d, Empty(f)) && Enabled(d, CreateBlock(f, b))
    ensures Bytes(data) && pos + |data| <= LIMIT ==> Enabled(d, WriteAt(f, pos, data))
    ensures var (d', s) := (Apply(d, CreateBlock(f, b)), SlotOf(f, b));
            IsSlot(d', s) && (ZoneAt(d', s) != 0 <==> |Lacking(d, Way(s))| <= Room(d))
  {
    hide Inv, Tidy, Write, Room, Lacking, ZoneAt, Grown;
    InvShape(d);
    if Bytes(data) { WritePanics(d, f, pos, data); }
    SlotOfIs(d, f, b);
    EnsureFills(d, SlotOf(f, b));
    EnsureKeeps(d, SlotOf(f, b), true);
    GrownInv(d, Ensure(d, SlotOf(f, b), true).0, SlotOf(f, b), SlotOf(f, b));
  }

  lemma ReplayNothing(files: seq<seq<nat>>)
    ensures Replay(files, Nothing) == files
  {
  }

  // ---- Runs ----

  ghost predicate Possible(d: Disk, es: seq<Event>)
    requires Shape(d)
    decreases |es|
  {
    es == [] || (Enabled(d, es[0]) && Possible(Apply(d, es[0]), es[1..]))
  }

  ghost function Final(d: Disk, es: seq<Event>): Disk
    requires Shape(d) && Possible(d, es)
    decreases |es|
  {
    if es == [] then d else Final(Apply(d, es[0]), es[1..])
  }

  ghost function Effects(d: Disk, es: seq<Event>): seq<FileOp>
    requires Shape(d) && Possible(d, es)
    decreases |es|
  {
    if es == [] then [] else [Effect(d, es[0])] + Effects(Apply(d, es[0]), es[1..])
  }

  /** From a tidy disk, every run keeps all zones owned exactly once and ends with the
      files that the byte-sequence operations give. */
  lemma {:induction false} RunRefines(d: Disk, es: seq<Event>)
    requires Inv(d) && Tidy(d) && Possible(d, es)
    ensures Inv(Final(d, es)) && Tidy(Final(d, es)) && View(Final(d, es)) == ReplayAll(View(d), Effects(d, es))
    decreases |es|
  {
    hide Inv, Tidy, View, Apply, Effect, Replay, Shape, Enabled;
    InvShape(d);
    if es != [] {
      StepRefines(d, es[0]);
      RunRefines(Apply(d, es[0]), es[1..]);
      var (op, ops) := (Effect(d, es[0]), Effects(Apply(d, es[0]), es[1..]));
      assert Effects(d, es) == [op] + ops && ([op] + ops)[1..] == ops;
    }
  }

  /** file_read at any time returns the slice of the contents, zeros past the end. */
  lemma ReadRefines(d: Disk, f: nat, pos: nat, count: nat)
    requires Inv(d) && Tidy(d) && IsFile(d, f) && pos + count <= LIMIT
    ensures Read(d, f, pos, count) == Done(Slice(Contents(d, f), pos, count))
  {
    hide Inv, Byte, Read;
    InvShape(d);
    ReadIsSlice(d, f, pos, count);
    var (r, c) := (Read(d, f, pos, count).value, Slice(Contents(d, f), pos, count));
    forall k | 0 <= k < count ensures r[k] == c[k] {
      assert r[k] == Byte(d, f, pos + k);
      if pos + k < d.inodes[f].size { assert Contents(d, f)[pos + k] == Byte(d, f, pos + k); }
    }
    assert r == c;
  }

  // ---- The start, and contents nobody owns ----

  /** A new file system: no inode has any zone, and no zone is marked. */
  ghost predicate Fresh(d: Disk) {
    && Shape(d) && MapEnds(d)
    && (forall j :: 0 < j <= d.nzones - d.first ==> !d.zmap[j])
    && (forall f :: 0 <= f < |d.inodes| && d.inodes[f].plain ==>
          d.inodes[f] == Inode(true, [0, 0, 0, 0, 0, 0, 0, 0, 0], 0))
  }

  lemma {:induction false} FreshZones(d: Disk, s: Slot)
    requires Fresh(d) && IsSlot(d, s)
    ensures ZoneAt(d, s) == 0
  {
    if s.Sub? { FreshZones(d, s.parent); }
  }

  lemma FreshInv(d: Disk)
    requires Fresh(d)
    ensures Inv(d) && Tidy(d) && forall f :: 0 <= f < |d.inodes| ==> Contents(d, f) == []
  {
    hide ZoneAt, IsSlot;
    forall s | IsSlot(d, s) ensures ZoneAt(d, s) == 0 { FreshZones(d, s); }
    assert Inv(d);
    forall f: nat, p: nat | IsFile(d, f) && p < LIMIT ensures Byte(d, f, p) == 0 {
      SlotOfIs(d, f, p / BLOCK_SIZE);
    }
  }

  lemma {:induction false} UnownedZones(d: Disk, z: nat, b: Block, s: Slot)
    requires Inv(d) && z < d.nzones && !Owned(d, z) && IsBlock(b) && IsSlot(d, s)
    ensures Shape(SetBlock(d, z, b)) && IsSlot(SetBlock(d, z, b), s) && ZoneAt(SetBlock(d, z, b), s) == ZoneAt(d, s)
  {
    hide Inv, Get;
    InvShape(d);
    SameSlots(d, SetBlock(d, z, b), s);
    if s.Sub? { UnownedZones(d, z, b, s.parent); }
  }

  /** What a free zone holds makes no difference to anything. */
  lemma UnownedContents(d: Disk, z: nat, b: Block)
    requires Inv(d) && z < d.nzones && !Owned(d, z) && IsBlock(b)
    ensures Inv(SetBlock(d, z, b))
    ensures forall f: nat, p: nat :: IsFile(d, f) && p < LIMIT ==> Byte(SetBlock(d, z, b), f, p) == Byte(d, f, p)
  {
    hide Inv, ZoneAt, IsSlot;
    InvShape(d);
    var d' := SetBlock(d, z, b);
    forall s ensures IsSlot(d', s) == IsSlot(d, s) { SameSlots(d, d', s); }
    forall s | IsSlot(d, s) ensures ZoneAt(d', s) == ZoneAt(d, s) { UnownedZones(d, z, b, s); }
    SetBlockShape(d, z, b);
    SameZonesInv(d, d');
    forall f: nat, p: nat | IsFile(d, f) && p < LIMIT ensures Byte(d', f, p) == Byte(d, f, p) {
      SlotOfIs(d, f, p / BLOCK_SIZE);
      ZoneRange(d, SlotOf(f, p / BLOCK_SIZE));
    }
  }

  lemma SetBlockShape(d: Disk, z: nat, b: Block)
    requires Shape(d) && z < d.nzones && IsBlock(b)
    ensures Shape(SetBlock(d, z, b))
  {
  }
}

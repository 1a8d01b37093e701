/** Calls that make blocks at the same time. new_block marks a zone and then sleeps in getblk, and _bmap has
    looked at the place before that and does not look again. No zone ever gets a second owner; but zones are
    lost, for good, exactly when two calls that overlap make the same place. (A table on the way to a place is
    looked up in the same step; truncation is not among the steps.) */
module ZoneRaces {
  import opened Zones
  import opened ZoneOwnership
  import opened FileContents

  /** A call of new_block asleep in getblk: the place it is for, the table that place is in, the zone it marked. */
  datatype Making = Making(s: Slot, t: nat, z: nat)

  datatype Race = Race(d: Disk, calls: map<nat, Making>)

  /** Begin: call a finds that place s has no zone, and marks one. End: getblk returns, the zone is cleared and
      put in the place. Store: bytes are copied into the block of a place. */
  datatype Event = Begin(a: nat, s: Slot) | End(a: nat) | Store(s: Slot, pos: nat, chunk: seq<nat>)

  ghost predicate InRange(d: Disk, z: nat) { d.first <= z < d.nzones }

  ghost predicate Bit(d: Disk, z: nat) { 1 <= d.first <= z && BitOf(d, z) < |d.zmap| && d.zmap[BitOf(d, z)] }

  /** new_block up to getblk; 0 if there is no zone. */
  ghost function Mark(d: Disk): (r: (seq<bool>, nat))
    requires Shape(d)
    ensures r.1 < d.nzones
  {
    var j := FirstZero(d.zmap);
    if j == |d.zmap| || j + d.first - 1 >= d.nzones then (if j == |d.zmap| then d.zmap else d.zmap[j := true], 0)
    else (d.zmap[j := true], j + d.first - 1)
  }

  /** new_block from getblk on, and the assignment that follows it. */
  ghost function Stored(d: Disk, s: Slot, t: nat, z: nat): Disk
    requires Shape(d) && IsSlot(d, s) && z < d.nzones && (s.Sub? ==> t < d.nzones)
  {
    var d1 := SetBlock(d, z, Zeros());
    match s
    case Top(f, i) => SetZone(d1, f, i, z)
    case Sub(_, i) => SetBlock(d1, t, Put(d1.blocks[t], i, z))
  }

  /** The table that place s is an entry of. */
  ghost function TableOf(d: Disk, s: Slot): nat
    requires Shape(d) && IsSlot(d, s)
  {
    if s.Sub? then ZoneAt(d, s.parent) else 0
  }

  // ---- What holds whatever overlaps ----

  /** Ownership, except that marked zones need not be owned. */
  ghost predicate Sound(d: Disk) {
    && Shape(d) && MapEnds(d) && ZonesInRange(d) && NoSharing(d)
    && (forall z :: d.first <= z < d.nzones && Owned(d, z) ==> Bit(d, z))
  }

  ghost predicate Flying(r: Race, z: nat) { exists a :: a in r.calls && r.calls[a].z == z }

  /** A call's zone is marked and nobody's; its table is the one its place is in, or nobody's any more. */
  ghost predicate CallRight(r: Race, m: Making)
    requires Shape(r.d)
  {
    && IsSlot(r.d, m.s) && InRange(r.d, m.z) && Bit(r.d, m.z) && !Owned(r.d, m.z)
    && (m.s.Sub? ==>
          InRange(r.d, m.t) && Bit(r.d, m.t) && !Flying(r, m.t) && (ZoneAt(r.d, m.s.parent) == m.t || !Owned(r.d, m.t)))
  }

  ghost predicate Inv(r: Race) {
    && Sound(r.d)
    && (forall a :: a in r.calls ==> CallRight(r, r.calls[a]))
    && (forall a, b :: a in r.calls && b in r.calls && r.calls[a].z == r.calls[b].z ==> a == b)
  }

  /** A marked zone that no place and no call has. */
  ghost predicate Lost(r: Race, z: nat)
    requires Shape(r.d)
  {
    InRange(r.d, z) && Bit(r.d, z) && !Owned(r.d, z) && !Flying(r, z)
  }

  /** The place that call a makes has got a zone already, or another call makes it too. */
  ghost predicate Contested(r: Race, a: nat)
    requires Shape(r.d) && a in r.calls
  {
    && IsSlot(r.d, r.calls[a].s)
    && (ZoneAt(r.d, r.calls[a].s) != 0 || exists b :: b in r.calls && b != a && r.calls[b].s == r.calls[a].s)
  }

  /** Every marked zone is owned or about to be, and no two calls make the same place. */
  ghost predicate Calm(r: Race)
    requires Shape(r.d)
  {
    (forall z :: InRange(r.d, z) ==> !Lost(r, z)) && (forall a :: a in r.calls ==> !Contested(r, a))
  }

  // ---- Steps ----

  ghost predicate Fits(r: Race) {
    && Shape(r.d)
    && (forall a :: a in r.calls ==>
          IsSlot(r.d, r.calls[a].s) && r.calls[a].z < r.d.nzones && (r.calls[a].s.Sub? ==> r.calls[a].t < r.d.nzones))
  }

  ghost predicate Enabled(r: Race, e: Event)
    requires Fits(r)
  {
    match e
    case Begin(a, s) => a !in r.calls && IsSlot(r.d, s) && ParentThere(r.d, s) && ZoneAt(r.d, s) == 0
    case End(a) => a in r.calls
    case Store(s, pos, chunk) =>
      IsSlot(r.d, s) && Level(s) == 0 && 0 < ZoneAt(r.d, s) < r.d.nzones && pos + |chunk| <= BLOCK_SIZE && Bytes(chunk)
  }

  ghost function Apply(r: Race, e: Event): Race
    requires Fits(r) && Enabled(r, e)
  {
    match e
    case Begin(a, s) =>
      var (zmap, z) := Mark(r.d);
      Race(r.d.(zmap := zmap), if z == 0 then r.calls else r.calls[a := Making(s, TableOf(r.d, s), z)])
    case End(a) =>
      var m := r.calls[a];
      Race(Stored(r.d, m.s, m.t, m.z), r.calls - {a})
    case Store(s, pos, chunk) =>
      var z := ZoneAt(r.d, s);
      Race(SetBlock(r.d, z, Overlay(r.d.blocks[z], pos, chunk)), r.calls)
  }

  /** Call a gets a zone for a place that another call is making. */
  ghost predicate Overlaps(r: Race, e: Event)
    requires Shape(r.d)
  {
    e.Begin? && Mark(r.d).1 != 0 && exists b :: b in r.calls && r.calls[b].s == e.s
  }

  lemma MarkIs(d: Disk)
    requires Shape(d) && MapEnds(d)
    ensures var (zmap, z) := Mark(d);
            && |zmap| == |d.zmap| && zmap[0]
            && (z != 0 ==> InRange(d, z) && !Bit(d, z))
            && (forall y :: InRange(d, y) ==> (Bit(d.(zmap := zmap), y) <==> Bit(d, y) || y == z))
  {
  }

  // ---- What End does to the places ----

  /** What has to be so for a zone to be put in a place. */
  ghost predicate CanStore(d: Disk, s: Slot, t: nat, z: nat) {
    && Sound(d) && IsSlot(d, s) && InRange(d, z) && !Owned(d, z)
    && (s.Sub? ==> InRange(d, t) && t != z && (ZoneAt(d, s.parent) == t || !Owned(d, t)))
  }

  ghost predicate Linked(d: Disk, s: Slot, t: nat)
    requires Shape(d) && IsSlot(d, s)
  {
    s.Top? || ZoneAt(d, s.parent) == t
  }

  lemma StoredShape(d: Disk, s: Slot, t: nat, z: nat)
    requires CanStore(d, s, t, z)
    ensures var d' := Stored(d, s, t, z);
            && Shape(d') && d'.first == d.first && d'.nzones == d.nzones && d'.zmap == d.zmap
            && |d'.inodes| == |d.inodes|
            && (forall f :: 0 <= f < |d.inodes| ==>
                  d'.inodes[f].plain == d.inodes[f].plain && d'.inodes[f].size == d.inodes[f].size)
  {
    hide ZonesInRange, NoSharing, Owned, Put;
    if s.Sub? { GetPut(SetBlock(d, z, Zeros()).blocks[t], s.i, 0, z); }
  }

  lemma SoundRange(d: Disk, s: Slot)
    requires Sound(d) && IsSlot(d, s)
    ensures ZoneAt(d, s) == 0 || (InRange(d, ZoneAt(d, s)) && Owned(d, ZoneAt(d, s)) && Bit(d, ZoneAt(d, s)))
  {
    hide NoSharing, MapEnds;
  }

  lemma SoundOwner(d: Disk, s: Slot, t: Slot)
    requires Sound(d) && IsSlot(d, s) && IsSlot(d, t) && ZoneAt(d, s) != 0 && ZoneAt(d, s) == ZoneAt(d, t)
    ensures s == t
  {
    hide ZonesInRange, MapEnds, Bit;
  }

  /** The place points to the zone if its table is still there, and then what was below the place is gone. */
  lemma {:induction false} StoredZones(d: Disk, s: Slot, t: nat, z: nat, u: Slot)
    requires CanStore(d, s, t, z) && IsSlot(d, u)
    ensures Shape(Stored(d, s, t, z)) && IsSlot(Stored(d, s, t, z), u)
    ensures ZoneAt(Stored(d, s, t, z), u) ==
            if Linked(d, s, t) && u == s then z else if Linked(d, s, t) && Below(u, s) then 0 else ZoneAt(d, u)
    decreases u
  {
    hide Put, Get, Owned, ZonesInRange, NoSharing, MapEnds, Bit;
    var d' := Stored(d, s, t, z);
    StoredShape(d, s, t, z);
    SameSlots(d, d', u);
    if u.Sub? {
      StoredZones(d, s, t, z, u.parent);
      SoundRange(d, u.parent);
      EntryAfter(d, s, t, z, u);
    }
  }

  /** A place is not below what is below it. */
  lemma NotBelow(u: Slot, s: Slot)
    requires u.Sub? && Below(u.parent, s)
    ensures u != s
  {
    Deeper(u.parent, s);
  }

  function Depth(s: Slot): nat { if s.Top? then 0 else Depth(s.parent) + 1 }

  lemma {:induction false} Deeper(u: Slot, s: Slot)
    requires Below(u, s)
    ensures Depth(u) >= Depth(s)
  {
    if u != s { Deeper(u.parent, s); }
  }

  /** An entry, in terms of what its table became. */
  lemma EntryAfter(d: Disk, s: Slot, t: nat, z: nat, u: Slot)
    requires CanStore(d, s, t, z) && IsSlot(d, u) && u.Sub?
    requires var d' := Stored(d, s, t, z);
             && Shape(d') && IsSlot(d', u) && d'.nzones == d.nzones
             && ZoneAt(d', u.parent) == if Linked(d, s, t) && u.parent == s then z
                  else if Linked(d, s, t) && Below(u.parent, s) then 0 else ZoneAt(d, u.parent)
    requires ZoneAt(d, u.parent) == 0 || (InRange(d, ZoneAt(d, u.parent)) && Owned(d, ZoneAt(d, u.parent)))
    ensures ZoneAt(Stored(d, s, t, z), u) ==
            if Linked(d, s, t) && u == s then z else if Linked(d, s, t) && Below(u, s) then 0 else ZoneAt(d, u)
  {
    hide Put, Get, Owned, ZonesInRange, NoSharing, MapEnds, Bit;
    var (q, y) := (u.parent, ZoneAt(d, u.parent));
    var d' := Stored(d, s, t, z);
    if Linked(d, s, t) && q == s {
      GetZero(u.i);
      assert d'.blocks[z] == Zeros();
    } else if Linked(d, s, t) && Below(q, s) {
      assert Below(u, s) && u != s by { NotBelow(u, s); }
    } else if y == 0 {
      assert !(Linked(d, s, t) && u == s);
    } else if s.Sub? && y == t {
      assert IsSlot(d, s.parent) && Level(s.parent) > 0;
      if Linked(d, s, t) { SoundOwner(d, q, s.parent); }
      GetPut(SetBlock(d, z, Zeros()).blocks[t], s.i, u.i, z);
      assert d'.blocks[t] == Put(d.blocks[t], s.i, z);
    } else {
      assert d'.blocks[y] == d.blocks[y];
    }
  }

  /** End gives no zone but its own an owner; the zone that was in the place loses its owner, and so does nothing
      but what was below the place; if the place's table is gone, the new zone has no owner either. */
  lemma OwnersAfter(d: Disk, s: Slot, t: nat, z: nat, y: nat)
    requires CanStore(d, s, t, z) && y != 0
    ensures Shape(Stored(d, s, t, z)) && (Owned(Stored(d, s, t, z), y) ==> Owned(d, y) || (y == z && Linked(d, s, t)))
    ensures Linked(d, s, t) && y == ZoneAt(d, s) ==> !Owned(Stored(d, s, t, z), y)
  {
    hide Sound, Put, Get, ZoneAt, IsSlot, Stored, Linked, Below;
    SoundEnds(d);
    var d' := Stored(d, s, t, z);
    StoredShape(d, s, t, z);
    if Owned(d', y) {
      var u :| IsSlot(d', u) && ZoneAt(d', u) == y;
      SameSlots(d, d', u);
      StoredZones(d, s, t, z, u);
      if ZoneAt(d, u) == y && y == ZoneAt(d, s) { SoundOwner(d, u, s); }
    }
  }

  lemma OwnersStay(d: Disk, s: Slot, t: nat, z: nat, y: nat)
    requires CanStore(d, s, t, z) && y != 0
    ensures Shape(Stored(d, s, t, z)) && (Linked(d, s, t) ==> Owned(Stored(d, s, t, z), z))
    ensures !(Linked(d, s, t) && ZoneAt(d, s) != 0) && Owned(d, y) ==> Owned(Stored(d, s, t, z), y)
  {
    hide Sound, Put, Get, ZoneAt, IsSlot, Stored, Linked, Below;
    SoundEnds(d);
    var d' := Stored(d, s, t, z);
    StoredShape(d, s, t, z);
    StoredZones(d, s, t, z, s);
    if Owned(d, y) && !(Linked(d, s, t) && ZoneAt(d, s) != 0) {
      var u :| IsSlot(d, u) && ZoneAt(d, u) == y;
      StoredZones(d, s, t, z, u);
      if Linked(d, s, t) && Below(u, s) { BelowNothing(d, u, s); }
      assert IsSlot(d', u) && ZoneAt(d', u) == y;
    }
  }

  /** Below a place without a zone there are none. */
  lemma {:induction false} BelowNothing(d: Disk, u: Slot, s: Slot)
    requires Shape(d) && IsSlot(d, u) && IsSlot(d, s) && Below(u, s) && ZoneAt(d, s) == 0
    ensures ZoneAt(d, u) == 0
  {
    if u != s { BelowNothing(d, u.parent, s); }
  }

  lemma StoredSound(d: Disk, s: Slot, t: nat, z: nat)
    requires CanStore(d, s, t, z) && Bit(d, z)
    ensures Sound(Stored(d, s, t, z))
  {
    hide Sound, Stored, Put, Get, Owned, Bit, ZoneAt, IsSlot, Linked, Below;
    SoundEnds(d);
    var d' := Stored(d, s, t, z);
    StoredShape(d, s, t, z);
    forall u ensures IsSlot(d', u) == IsSlot(d, u) { SameSlots(d, d', u); }
    forall u | IsSlot(d', u)
      ensures ZoneAt(d', u) == if Linked(d, s, t) && u == s then z else if Linked(d, s, t) && Below(u, s) then 0
                else ZoneAt(d, u)
    {
      StoredZones(d, s, t, z, u);
    }
    forall u | IsSlot(d', u) && ZoneAt(d', u) != 0 ensures InRange(d', ZoneAt(d', u)) { SoundRange(d, u); }
    forall u, v | IsSlot(d', u) && IsSlot(d', v) && ZoneAt(d', u) != 0 && ZoneAt(d', u) == ZoneAt(d', v)
      ensures u == v
    {
      SoundRange(d, u);
      SoundRange(d, v);
      if ZoneAt(d, u) == ZoneAt(d, v) && ZoneAt(d, u) != 0 { SoundOwner(d, u, v); }
    }
    forall y: nat | d'.first <= y < d'.nzones && Owned(d', y) ensures Bit(d', y) {
      OwnersAfter(d, s, t, z, y);
      if y != z { SoundBits(d, y); }
      SameBit(d, d', y);
    }
    SoundFrom(d');
  }

  lemma SameBit(d: Disk, d': Disk, y: nat)
    requires d'.first == d.first && d'.nzones == d.nzones && d'.zmap == d.zmap
    ensures Bit(d', y) == Bit(d, y)
  {
  }

  lemma SoundBits(d: Disk, y: nat)
    requires Sound(d) && InRange(d, y) && Owned(d, y)
    ensures Bit(d, y)
  {
  }

  lemma SoundEnds(d: Disk)
    requires Sound(d)
    ensures Shape(d) && MapEnds(d) && 1 <= d.first
  {
  }

  lemma SoundFrom(d: Disk)
    requires Shape(d) && MapEnds(d) && ZonesInRange(d) && NoSharing(d)
    requires forall z :: d.first <= z < d.nzones && Owned(d, z) ==> Bit(d, z)
    ensures Sound(d)
  {
  }

  // ---- Every step keeps the invariant ----

  lemma InvParts(r: Race)
    requires Inv(r)
    ensures Sound(r.d) && Shape(r.d) && MapEnds(r.d) && r.d.first >= 1 && Fits(r)
    ensures forall a :: a in r.calls ==>
              CallRight(r, r.calls[a]) && CanStore(r.d, r.calls[a].s, r.calls[a].t, r.calls[a].z)
  {
    hide ZonesInRange, NoSharing, Owned, Bit;
    forall a | a in r.calls
      ensures CallRight(r, r.calls[a]) && CanStore(r.d, r.calls[a].s, r.calls[a].t, r.calls[a].z)
    {
      assert Flying(r, r.calls[a].z);
    }
  }

  /** With other bits in the map, the same places, zones and owners. */
  lemma MapPlaces(d: Disk, zmap: seq<bool>)
    requires Shape(d)
    ensures var d' := d.(zmap := zmap);
            && Shape(d')
            && (forall s :: IsSlot(d', s) == IsSlot(d, s) && (IsSlot(d, s) ==> ZoneAt(d', s) == ZoneAt(d, s)))
            && (forall z :: Owned(d', z) == Owned(d, z))
  {
    hide ZoneAt, IsSlot, Owned;
    var d' := d.(zmap := zmap);
    forall s ensures IsSlot(d', s) == IsSlot(d, s) && (IsSlot(d, s) ==> ZoneAt(d', s) == ZoneAt(d, s)) {
      MapZones(d, zmap, s);
    }
    forall z ensures Owned(d', z) == Owned(d, z) { MapOwned(d, zmap, z); }
  }

  lemma MarkSound(d: Disk)
    requires Sound(d)
    ensures Sound(d.(zmap := Mark(d).0))
  {
    hide Mark, Shape, ZoneAt, IsSlot, Owned, Bit;
    SoundEnds(d);
    MarkIs(d);
    MapPlaces(d, Mark(d).0);
    var d' := d.(zmap := Mark(d).0);
    forall y: nat | d'.first <= y < d'.nzones && Owned(d', y) ensures Bit(d', y) { SoundBits(d, y); }
    SoundFrom(d');
  }

  /** A call made before stays right when another begins. */
  lemma BeginCall(r: Race, r': Race, m: Making, z: nat)
    requires Inv(r) && CallRight(r, m) && r'.d == r.d.(zmap := Mark(r.d).0) && z == Mark(r.d).1
    requires forall y :: Flying(r', y) ==> Flying(r, y) || (y == z && z != 0)
    ensures Shape(r'.d) && CallRight(r', m)
  {
    hide Inv, Mark, Shape, ZoneAt, Owned, Bit, Flying;
    InvParts(r);
    MarkIs(r.d);
    MapPlaces(r.d, Mark(r.d).0);
    if m.s.Sub? { assert IsSlot(r.d, m.s.parent); }
  }

  lemma BeginKeeps(r: Race, a: nat, s: Slot)
    requires Inv(r) && Fits(r) && Enabled(r, Begin(a, s))
    ensures Inv(Apply(r, Begin(a, s)))
  {
    hide Mark, Shape, ZoneAt, IsSlot, Owned, Bit, Sound, CallRight, Enabled;
    InvParts(r);
    MarkIs(r.d);
    MarkSound(r.d);
    MapPlaces(r.d, Mark(r.d).0);
    var (r', z) := (Apply(r, Begin(a, s)), Mark(r.d).1);
    BeginParts(r, a, s);
    forall y | Flying(r', y) ensures Flying(r, y) || (y == z && z != 0) {
      var b :| b in r'.calls && r'.calls[b].z == y;
      if b in r.calls && r'.calls[b] == r.calls[b] { assert Flying(r, y); }
    }
    forall b | b in r'.calls ensures CallRight(r', r'.calls[b]) {
      if b == a { BeginNew(r, a, s); } else { BeginCall(r, r', r.calls[b], z); }
    }
    forall b, c | b in r'.calls && c in r'.calls && r'.calls[b].z == r'.calls[c].z ensures b == c {
      if b != c && b != a { CallBit(r, r.calls[b]); }
      if b != c && c != a { CallBit(r, r.calls[c]); }
    }
  }

  lemma CallBit(r: Race, m: Making)
    requires Shape(r.d) && CallRight(r, m)
    ensures InRange(r.d, m.z) && Bit(r.d, m.z) && !Owned(r.d, m.z)
  {
  }

  lemma BeginParts(r: Race, a: nat, s: Slot)
    requires Fits(r) && Enabled(r, Begin(a, s))
    ensures a !in r.calls && IsSlot(r.d, s) && ParentThere(r.d, s) && ZoneAt(r.d, s) == 0
  {
  }

  /** The new call is right. */
  lemma BeginNew(r: Race, a: nat, s: Slot)
    requires Inv(r) && Fits(r) && Enabled(r, Begin(a, s)) && Mark(r.d).1 != 0
    ensures var r' := Apply(r, Begin(a, s)); Shape(r'.d) && CallRight(r', Making(s, TableOf(r.d, s), Mark(r.d).1))
  {
    hide Mark, Shape, ZoneAt, Owned, Bit, Sound, Inv;
    InvParts(r);
    MarkIs(r.d);
    MapPlaces(r.d, Mark(r.d).0);
    var (r', z) := (Apply(r, Begin(a, s)), Mark(r.d).1);
    if Owned(r.d, z) { SoundBits(r.d, z); }
    if s.Sub? {
      SoundRange(r.d, s.parent);
      var t := ZoneAt(r.d, s.parent);
      assert Owned(r.d, t) && forall b :: b in r.calls ==> r.calls[b].z != t;
    }
  }

  /** Another call stays right when call a ends: its table is still the one its place is in, or nobody's. */
  lemma EndCall(r: Race, r': Race, a: nat, b: nat)
    requires Inv(r) && Fits(r) && a in r.calls && b in r.calls && a != b && r' == Apply(r, End(a))
    ensures Shape(r'.d) && CallRight(r', r.calls[b])
  {
    hide Inv, Shape, ZoneAt, Owned, Bit, Sound, Stored, Below, Linked;
    InvParts(r);
    var (m, n) := (r.calls[a], r.calls[b]);
    CallsApart(r, a, b);
    StoredShape(r.d, m.s, m.t, m.z);
    SameSlots(r.d, r'.d, n.s);
    SameBit(r.d, r'.d, n.z);
    OwnersAfter(r.d, m.s, m.t, m.z, n.z);
    if n.s.Sub? {
      SameBit(r.d, r'.d, n.t);
      assert n.t != m.z by { assert Flying(r, m.z); }
      assert !Flying(r', n.t);
      OwnersAfter(r.d, m.s, m.t, m.z, n.t);
      StoredZones(r.d, m.s, m.t, m.z, n.s.parent);
      if ZoneAt(r.d, n.s.parent) == n.t && ZoneAt(r'.d, n.s.parent) != n.t {
        UnderOwner(r.d, m.s, m.t, m.z, n.s.parent);
      }
    }
  }

  lemma CallsApart(r: Race, a: nat, b: nat)
    requires Inv(r) && a in r.calls && b in r.calls && a != b
    ensures r.calls[a].z != r.calls[b].z
  {
  }

  /** What a place below had, it has no more, and nobody else has it. */
  lemma UnderOwner(d: Disk, s: Slot, t: nat, z: nat, u: Slot)
    requires CanStore(d, s, t, z) && IsSlot(d, u) && ZoneAt(d, u) != 0
    requires Shape(Stored(d, s, t, z)) && IsSlot(Stored(d, s, t, z), u) && ZoneAt(Stored(d, s, t, z), u) != ZoneAt(d, u)
    ensures !Owned(Stored(d, s, t, z), ZoneAt(d, u))
  {
    hide Shape, ZoneAt, Sound, Stored, Below, Linked, IsSlot;
    SoundEnds(d);
    var (d', y) := (Stored(d, s, t, z), ZoneAt(d, u));
    StoredShape(d, s, t, z);
    SoundRange(d, u);
    if Owned(d', y) {
      var v :| IsSlot(d', v) && ZoneAt(d', v) == y;
      SameSlots(d, d', v);
      StoredZones(d, s, t, z, v);
      if ZoneAt(d, v) == y { SoundOwner(d, u, v); }
    }
  }

  lemma EndKeeps(r: Race, a: nat)
    requires Inv(r) && Fits(r) && a in r.calls
    ensures Inv(Apply(r, End(a)))
  {
    hide Shape, ZoneAt, Owned, Bit, Sound, Stored, CallRight;
    InvParts(r);
    var (m, r') := (r.calls[a], Apply(r, End(a)));
    CallBit(r, m);
    StoredSound(r.d, m.s, m.t, m.z);
    SoundEnds(r'.d);
    forall b | b in r'.calls ensures CallRight(r', r'.calls[b]) { EndCall(r, r', a, b); }
  }

  /** Bytes copied into a data block move no zone. */
  lemma {:induction false} DataZones(d: Disk, s: Slot, b: Block, u: Slot)
    requires Sound(d) && IsSlot(d, s) && Level(s) == 0 && ZoneAt(d, s) != 0 && IsBlock(b) && IsSlot(d, u)
    ensures ZoneAt(d, s) < d.nzones
    ensures var d' := SetBlock(d, ZoneAt(d, s), b); Shape(d') && IsSlot(d', u) && ZoneAt(d', u) == ZoneAt(d, u)
    decreases u
  {
    hide Get, Owned, ZonesInRange, NoSharing, MapEnds, Bit;
    SoundRange(d, s);
    SameSlots(d, SetBlock(d, ZoneAt(d, s), b), u);
    if u.Sub? {
      DataZones(d, s, b, u.parent);
      if ZoneAt(d, u.parent) == ZoneAt(d, s) { SoundOwner(d, u.parent, s); }
    }
  }

  /** The same places, zones and owners after bytes were copied. */
  lemma StorePlaces(d: Disk, s: Slot, b: Block)
    requires Sound(d) && IsSlot(d, s) && Level(s) == 0 && ZoneAt(d, s) != 0 && IsBlock(b)
    ensures ZoneAt(d, s) < d.nzones
    ensures var d' := SetBlock(d, ZoneAt(d, s), b);
            && Sound(d')
            && (forall u :: IsSlot(d', u) == IsSlot(d, u) && (IsSlot(d, u) ==> ZoneAt(d', u) == ZoneAt(d, u)))
            && (forall z :: Owned(d', z) == Owned(d, z))
  {
    hide Sound, ZoneAt, IsSlot, Bit;
    SoundEnds(d);
    SoundRange(d, s);
    DataZones(d, s, b, s);
    var d' := SetBlock(d, ZoneAt(d, s), b);
    forall u ensures IsSlot(d', u) == IsSlot(d, u) && (IsSlot(d, u) ==> ZoneAt(d', u) == ZoneAt(d, u)) {
      SameSlots(d, d', u);
      if IsSlot(d, u) { DataZones(d, s, b, u); }
    }
    forall u | IsSlot(d', u) && ZoneAt(d', u) != 0 ensures InRange(d', ZoneAt(d', u)) { SoundRange(d, u); }
    forall u, v | IsSlot(d', u) && IsSlot(d', v) && ZoneAt(d', u) != 0 && ZoneAt(d', u) == ZoneAt(d', v)
      ensures u == v
    {
      SoundOwner(d, u, v);
    }
    forall z ensures Owned(d', z) == Owned(d, z) {}
    forall y: nat | d'.first <= y < d'.nzones && Owned(d', y) ensures Bit(d', y) { SoundBits(d, y); SameBit(d, d', y); }
    SoundFrom(d');
  }

  lemma StoreKeeps(r: Race, s: Slot, pos: nat, chunk: seq<nat>)
    requires Inv(r) && Fits(r) && Enabled(r, Store(s, pos, chunk))
    ensures Inv(Apply(r, Store(s, pos, chunk)))
    ensures var r' := Apply(r, Store(s, pos, chunk));
            && (forall u :: IsSlot(r'.d, u) == IsSlot(r.d, u) && (IsSlot(r.d, u) ==> ZoneAt(r'.d, u) == ZoneAt(r.d, u)))
            && (forall z :: Owned(r'.d, z) == Owned(r.d, z))
  {
    hide Sound, ZoneAt, Owned, Bit;
    InvParts(r);
    var (r', b) := (Apply(r, Store(s, pos, chunk)), Overlay(r.d.blocks[ZoneAt(r.d, s)], pos, chunk));
    StorePlaces(r.d, s, b);
    forall y ensures Flying(r', y) == Flying(r, y) {}
    forall a | a in r'.calls ensures CallRight(r', r'.calls[a]) {
      SameBit(r.d, r'.d, r.calls[a].z);
      SameBit(r.d, r'.d, r.calls[a].t);
      assert CallRight(r, r.calls[a]);
    }
  }

  lemma StepKeeps(r: Race, e: Event)
    requires Inv(r) && Fits(r) && Enabled(r, e)
    ensures Inv(Apply(r, e)) && Fits(Apply(r, e))
  {
    hide Inv, Apply;
    match e {
      case Begin(a, s) => BeginKeeps(r, a, s);
      case End(a) => EndIs(r, a); EndKeeps(r, a);
      case Store(s, pos, chunk) => StoreKeeps(r, s, pos, chunk);
    }
    InvParts(Apply(r, e));
  }

  lemma EndIs(r: Race, a: nat)
    requires Fits(r) && Enabled(r, End(a))
    ensures a in r.calls
  {
  }

  // ---- Lost zones ----

  /** A lost zone stays lost: no step gives it an owner, and none clears its mark. */
  lemma LostStays(r: Race, e: Event, z: nat)
    requires Inv(r) && Fits(r) && Enabled(r, e) && Lost(r, z)
    ensures Shape(Apply(r, e).d) && Lost(Apply(r, e), z)
  {
    hide Shape, ZoneAt, IsSlot, Owned, Bit, Sound, Stored, CallRight, Mark, Inv;
    InvParts(r);
    var r' := Apply(r, e);
    match e
    case Begin(a, s) =>
      MarkIs(r.d);
      MapPlaces(r.d, Mark(r.d).0);
      assert forall b :: b in r.calls ==> r.calls[b].z != z;
    case End(a) =>
      var m := r.calls[a];
      assert Flying(r, m.z);
      StoredShape(r.d, m.s, m.t, m.z);
      SameBit(r.d, r'.d, z);
      OwnersAfter(r.d, m.s, m.t, m.z, z);
    case Store(s, pos, chunk) =>
      StoreKeeps(r, s, pos, chunk);
      InvParts(r');
      SameBit(r.d, r'.d, z);
  }

  // ---- Calm ----

  /** A new call for a place nobody makes disturbs nothing; one for a place that is being made does. */
  lemma BeginCalm(r: Race, a: nat, s: Slot)
    requires Inv(r) && Fits(r) && Enabled(r, Begin(a, s)) && Calm(r)
    ensures Shape(Apply(r, Begin(a, s)).d) && (Calm(Apply(r, Begin(a, s))) <==> !Overlaps(r, Begin(a, s)))
  {
    hide Shape, ZoneAt, IsSlot, Owned, Bit, Sound, CallRight, Mark, Inv, ParentThere;
    InvParts(r);
    MarkIs(r.d);
    MapPlaces(r.d, Mark(r.d).0);
    BeginParts(r, a, s);
    var r' := Apply(r, Begin(a, s));
    if Overlaps(r, Begin(a, s)) {
      var b :| b in r.calls && r.calls[b].s == s;
      assert Contested(r', a) by { assert b in r'.calls && b != a && r'.calls[b].s == r'.calls[a].s; }
    } else {
      forall z | InRange(r'.d, z) ensures !Lost(r', z) {
        assert !Lost(r, z);
        if Flying(r, z) { var b :| b in r.calls && r.calls[b].z == z; assert r'.calls[b].z == z; }
        assert a in r'.calls ==> Flying(r', r'.calls[a].z);
      }
      forall b | b in r'.calls ensures !Contested(r', b) {
        if b != a { assert !Contested(r, b); }
      }
    }
  }

  /** A call that ends alone leaves everything owned. */
  lemma EndCalm(r: Race, a: nat)
    requires Inv(r) && Fits(r) && a in r.calls && Calm(r)
    ensures Shape(Apply(r, End(a)).d) && Calm(Apply(r, End(a)))
  {
    hide Shape, ZoneAt, Owned, Bit, Sound, Stored, Below, Inv;
    InvParts(r);
    var (m, r') := (r.calls[a], Apply(r, End(a)));
    assert !Contested(r, a);
    StoredShape(r.d, m.s, m.t, m.z);
    assert Linked(r.d, m.s, m.t) by { if m.s.Sub? { assert !Lost(r, m.t); } }
    forall z | InRange(r'.d, z) ensures !Lost(r', z) {
      assert !Lost(r, z);
      SameBit(r.d, r'.d, z);
      OwnersStay(r.d, m.s, m.t, m.z, z);
      if Flying(r, z) {
        var b :| b in r.calls && r.calls[b].z == z;
        if b != a { assert b in r'.calls && r'.calls[b].z == z; }
      }
    }
    forall b | b in r'.calls ensures !Contested(r', b) {
      assert !Contested(r, b);
      StoredZones(r.d, m.s, m.t, m.z, r.calls[b].s);
    }
  }

  /** Copying bytes does not change whether it is calm. */
  lemma StoreCalm(r: Race, s: Slot, pos: nat, chunk: seq<nat>)
    requires Inv(r) && Fits(r) && Enabled(r, Store(s, pos, chunk))
    ensures Shape(Apply(r, Store(s, pos, chunk)).d) && (Calm(Apply(r, Store(s, pos, chunk))) <==> Calm(r))
  {
    hide Shape, ZoneAt, IsSlot, Owned, Bit, Sound, Inv;
    InvParts(r);
    var r' := Apply(r, Store(s, pos, chunk));
    StoreKeeps(r, s, pos, chunk);
    InvParts(r');
    forall z ensures Lost(r', z) == Lost(r, z) { SameBit(r.d, r'.d, z); }
    forall a | a in r.calls ensures Contested(r', a) == Contested(r, a) {}
  }

  /** A place that is being made twice, or again, costs a zone in the end. */
  lemma ContestedEnd(r: Race, a: nat, b: nat)
    requires Inv(r) && Fits(r) && a in r.calls && b in r.calls && Contested(r, b)
    ensures Shape(Apply(r, End(a)).d) && !Calm(Apply(r, End(a)))
  {
    hide Shape, ZoneAt, Owned, Bit, Sound, Stored, Below, Inv;
    InvParts(r);
    var (m, n, r') := (r.calls[a], r.calls[b], Apply(r, End(a)));
    StoredShape(r.d, m.s, m.t, m.z);
    if !Linked(r.d, m.s, m.t) {
      UnlinkedLost(r, a);
    } else if ZoneAt(r.d, m.s) != 0 {
      ReplacedLost(r, a);
    } else {
      StoredZones(r.d, m.s, m.t, m.z, n.s);
      StoredZones(r.d, m.s, m.t, m.z, m.s);
      if ZoneAt(r.d, n.s) != 0 {
        assert a != b;
        if Below(n.s, m.s) { BelowNothing(r.d, n.s, m.s); }
        assert Contested(r', b);
      } else {
        var c :| c in r.calls && c != b && r.calls[c].s == n.s;
        if a == b {
          assert Contested(r', c);
        } else if a == c {
          assert Contested(r', b);
        } else {
          assert c in r'.calls && r'.calls[c].s == r'.calls[b].s;
          assert IsSlot(r'.d, n.s) by { SameSlots(r.d, r'.d, n.s); }
          assert Contested(r', b);
        }
      }
    }
  }

  /** The zone goes into a table that is no longer anybody's. */
  lemma UnlinkedLost(r: Race, a: nat)
    requires Inv(r) && Fits(r) && a in r.calls && !Linked(r.d, r.calls[a].s, r.calls[a].t)
    ensures Shape(Apply(r, End(a)).d) && Lost(Apply(r, End(a)), r.calls[a].z)
  {
    hide Shape, ZoneAt, Owned, Bit, Sound, Stored, Inv;
    InvParts(r);
    var (m, r') := (r.calls[a], Apply(r, End(a)));
    StoredShape(r.d, m.s, m.t, m.z);
    OwnersAfter(r.d, m.s, m.t, m.z, m.z);
    SameBit(r.d, r'.d, m.z);
    forall b | b in r'.calls ensures r'.calls[b].z != m.z { CallsApart(r, a, b); }
  }

  /** The zone that was in the place is nobody's. */
  lemma ReplacedLost(r: Race, a: nat)
    requires Inv(r) && Fits(r) && a in r.calls && Linked(r.d, r.calls[a].s, r.calls[a].t)
    requires ZoneAt(r.d, r.calls[a].s) != 0
    ensures Shape(Apply(r, End(a)).d) && Lost(Apply(r, End(a)), ZoneAt(r.d, r.calls[a].s))
  {
    hide Shape, ZoneAt, Owned, Bit, Sound, Stored, Inv;
    InvParts(r);
    var (m, r') := (r.calls[a], Apply(r, End(a)));
    var x := ZoneAt(r.d, m.s);
    SoundRange(r.d, m.s);
    StoredShape(r.d, m.s, m.t, m.z);
    OwnersAfter(r.d, m.s, m.t, m.z, x);
    SameBit(r.d, r'.d, x);
    forall b | b in r'.calls ensures r'.calls[b].z != x { CallBit(r, r.calls[b]); }
  }

  /** A place that is contested stays so when another call begins. */
  lemma ContestedBegin(r: Race, a: nat, s: Slot, b: nat)
    requires Inv(r) && Fits(r) && Enabled(r, Begin(a, s)) && b in r.calls && Contested(r, b)
    ensures Shape(Apply(r, Begin(a, s)).d) && !Calm(Apply(r, Begin(a, s)))
  {
    hide Shape, ZoneAt, IsSlot, Owned, Bit, Sound, Mark, Inv;
    InvParts(r);
    MapPlaces(r.d, Mark(r.d).0);
    var r' := Apply(r, Begin(a, s));
    if ZoneAt(r.d, r.calls[b].s) == 0 {
      var c :| c in r.calls && c != b && r.calls[c].s == r.calls[b].s;
      assert c in r'.calls && r'.calls[c].s == r'.calls[b].s;
    }
    assert Contested(r', b);
  }

  /** Once a zone is lost, or is bound to be, it never gets calm again. */
  lemma NeverCalmAgain(r: Race, e: Event)
    requires Inv(r) && Fits(r) && Enabled(r, e) && !Calm(r)
    ensures Shape(Apply(r, e).d) && !Calm(Apply(r, e))
  {
    hide Shape, Lost, Contested, Inv, Apply, Sound, InRange;
    StepKeeps(r, e);
    InvParts(Apply(r, e));
    if z :| InRange(r.d, z) && Lost(r, z) {
      LostStays(r, e, z);
      LostNotCalm(Apply(r, e), z);
    } else {
      var b :| b in r.calls && Contested(r, b);
      match e
      case Begin(a, s) => ContestedBegin(r, a, s, b);
      case End(a) => EndIs(r, a); ContestedEnd(r, a, b);
      case Store(s, pos, chunk) => StoreCalm(r, s, pos, chunk);
    }
  }

  lemma LostNotCalm(r: Race, z: nat)
    requires Shape(r.d) && Lost(r, z)
    ensures !Calm(r)
  {
  }

  /** It stays calm exactly as long as no call gets a zone for a place that another is making. */
  lemma CalmStep(r: Race, e: Event)
    requires Inv(r) && Fits(r) && Enabled(r, e)
    ensures Shape(Apply(r, e).d) && (Calm(Apply(r, e)) <==> Calm(r) && !Overlaps(r, e))
  {
    hide Shape, Inv, Apply, Calm, Mark;
    if Calm(r) {
      match e
      case Begin(a, s) => BeginCalm(r, a, s);
      case End(a) => EndIs(r, a); EndCalm(r, a);
      case Store(s, pos, chunk) => StoreCalm(r, s, pos, chunk);
    } else {
      NeverCalmAgain(r, e);
    }
  }

  // ---- Runs ----

  ghost predicate Possible(r: Race, es: seq<Event>)
    requires Inv(r) && Fits(r)
    decreases |es|
  {
    es == [] || (Enabled(r, es[0]) && (StepKeeps(r, es[0]); Possible(Apply(r, es[0]), es[1..])))
  }

  /** Whatever overlaps, no zone has two owners, and no owned zone is free in the map. */
  ghost function Final(r: Race, es: seq<Event>): (q: Race)
    requires Inv(r) && Fits(r) && Possible(r, es)
    ensures Inv(q) && Fits(q)
    decreases |es|
  {
    if es == [] then r
    else
      StepKeeps(r, es[0]);
      Final(Apply(r, es[0]), es[1..])
  }

  /** No call gets a zone for a place that another call is making. */
  ghost predicate NoOverlap(r: Race, es: seq<Event>)
    requires Inv(r) && Fits(r) && Possible(r, es)
    decreases |es|
  {
    es == [] || (!Overlaps(r, es[0]) && (StepKeeps(r, es[0]); NoOverlap(Apply(r, es[0]), es[1..])))
  }

  lemma {:induction false} RunCalm(r: Race, es: seq<Event>)
    requires Inv(r) && Fits(r) && Possible(r, es)
    ensures Calm(Final(r, es)) <==> Calm(r) && NoOverlap(r, es)
    decreases |es|
  {
    hide Inv, Fits, Apply, Calm, Overlaps, Enabled;
    ShapeOf(r);
    if es != [] {
      StepKeeps(r, es[0]);
      CalmStep(r, es[0]);
      RunCalm(Apply(r, es[0]), es[1..]);
    }
  }

  lemma ShapeOf(r: Race)
    requires Inv(r)
    ensures Shape(r.d)
  {
  }

  /** With no call under way, calm is ownership. */
  lemma CalmIsOwnership(d: Disk)
    ensures ZoneOwnership.Inv(d) <==> Inv(Race(d, map[])) && Calm(Race(d, map[]))
  {
    hide Owned, IsSlot, ZoneAt;
    if ZoneOwnership.Inv(d) {
      forall z ensures Flying(Race(d, map[]), z) == false {}
      assert Sound(d);
    }
    if Inv(Race(d, map[])) && Calm(Race(d, map[])) {
      forall z | d.first <= z < d.nzones ensures d.zmap[z - d.first + 1] <==> Owned(d, z) {
        assert !Lost(Race(d, map[]), z);
        assert !Flying(Race(d, map[]), z);
      }
    }
  }

  /** From a disk where the zones owned are the zones marked, over any interleaving of calls that make blocks and
      copy bytes: when all have ended, that is so again if and only if no two of them made the same place at once. */
  lemma OwnedIffNoOverlap(d: Disk, es: seq<Event>)
    requires ZoneOwnership.Inv(d)
    ensures Inv(Race(d, map[])) && Fits(Race(d, map[]))
    ensures Possible(Race(d, map[]), es) && Final(Race(d, map[]), es).calls == map[] ==>
              (ZoneOwnership.Inv(Final(Race(d, map[]), es).d) <==> NoOverlap(Race(d, map[]), es))
  {
    hide Inv, Fits, Calm, Possible, Final, NoOverlap, ZoneOwnership.Inv;
    CalmIsOwnership(d);
    InvParts(Race(d, map[]));
    if Possible(Race(d, map[]), es) && Final(Race(d, map[]), es).calls == map[] {
      RunCalm(Race(d, map[]), es);
      CalmIsOwnership(Final(Race(d, map[]), es).d);
    }
  }

  /** A zone once lost is lost for good. */
  lemma {:induction false} LostForever(r: Race, es: seq<Event>, z: nat)
    requires Inv(r) && Fits(r) && Possible(r, es) && Lost(r, z)
    ensures Lost(Final(r, es), z)
    decreases |es|
  {
    hide Inv, Fits, Apply, Lost, Enabled;
    if es != [] {
      StepKeeps(r, es[0]);
      LostStays(r, es[0], z);
      LostForever(Apply(r, es[0]), es[1..], z);
    }
  }

  lemma Cons(r: Race, e: Event, es: seq<Event>)
    requires Inv(r) && Fits(r) && Enabled(r, e)
    ensures Inv(Apply(r, e)) && Fits(Apply(r, e))
    ensures Possible(Apply(r, e), es) ==>
              && Possible(r, [e] + es) && Final(r, [e] + es) == Final(Apply(r, e), es)
              && (NoOverlap(r, [e] + es) <==> !Overlaps(r, e) && NoOverlap(Apply(r, e), es))
  {
    hide Inv, Fits, Apply, Enabled, Overlaps;
    StepKeeps(r, e);
    assert ([e] + es)[1..] == es;
  }

  /** It happens on any disk with two free zones: two calls find the same place missing, and when both have ended
      one of the zones they made is lost. */
  lemma TwoCallsOnePlace(d: Disk, s: Slot)
    requires ZoneOwnership.Inv(d) && IsSlot(d, s) && ParentThere(d, s) && ZoneAt(d, s) == 0
    requires Mark(d).1 != 0 && Mark(d.(zmap := Mark(d).0)).1 != 0
    ensures Inv(Race(d, map[])) && Fits(Race(d, map[]))
    ensures var es := [Begin(0, s)] + ([Begin(1, s)] + ([End(0)] + ([End(1)] + [])));
            && Possible(Race(d, map[]), es) && Final(Race(d, map[]), es).calls == map[]
            && !ZoneOwnership.Inv(Final(Race(d, map[]), es).d)
  {
    hide ZoneOwnership.Inv, Inv, Sound, Owned, Stored, Mark, Possible, Final, NoOverlap, ZoneAt;
    CalmIsOwnership(d);
    var r := Race(d, map[]);
    InvParts(r);
    MapPlaces(d, Mark(d).0);
    StepKeeps(r, Begin(0, s));
    var r1 := Apply(r, Begin(0, s));
    StepKeeps(r1, Begin(1, s));
    var r2 := Apply(r1, Begin(1, s));
    assert r1.calls[0].s == s && Overlaps(r1, Begin(1, s));
    StepKeeps(r2, End(0));
    var r3 := Apply(r2, End(0));
    StepKeeps(r3, End(1));
    var r4 := Apply(r3, End(1));
    assert r4.calls == map[];
    Empty(r4);
    Cons(r3, End(1), []);
    Cons(r2, End(0), [End(1)] + []);
    Cons(r1, Begin(1, s), [End(0)] + ([End(1)] + []));
    Cons(r, Begin(0, s), [Begin(1, s)] + ([End(0)] + ([End(1)] + [])));
    OwnedIffNoOverlap(d, [Begin(0, s)] + ([Begin(1, s)] + ([End(0)] + ([End(1)] + []))));
  }

  lemma Empty(r: Race)
    requires Inv(r) && Fits(r)
    ensures Possible(r, []) && Final(r, []) == r && NoOverlap(r, [])
  {
  }

  // ---- Contents ----

  /** What the block of a place holds; a missing one holds zeros. */
  ghost function Holds(d: Disk, s: Slot): Block
    requires Shape(d) && IsSlot(d, s)
  {
    if ZoneAt(d, s) == 0 || ZoneAt(d, s) >= d.nzones then Zeros() else d.blocks[ZoneAt(d, s)]
  }

  /** While it is calm, a step changes the bytes of the block copied into, and no others. */
  lemma StepHolds(r: Race, e: Event, u: Slot)
    requires Inv(r) && Fits(r) && Enabled(r, e) && Calm(r) && IsSlot(r.d, u) && Level(u) == 0
    ensures Shape(Apply(r, e).d) && IsSlot(Apply(r, e).d, u) && |Holds(r.d, u)| == BLOCK_SIZE
    ensures Holds(Apply(r, e).d, u) == if e.Store? && e.s == u && e.pos + |e.chunk| <= BLOCK_SIZE
              then Overlay(Holds(r.d, u), e.pos, e.chunk) else Holds(r.d, u)
  {
    hide Inv, Apply, Calm, ZoneAt, Overlay;
    InvParts(r);
    SoundRange(r.d, u);
    match e
    case Begin(a, s) => BeginHolds(r, a, s, u);
    case End(a) => EndIs(r, a); EndHolds(r, a, u);
    case Store(s, pos, chunk) => StoreHolds(r, s, pos, chunk, u);
  }

  lemma BeginHolds(r: Race, a: nat, s: Slot, u: Slot)
    requires Inv(r) && Fits(r) && Enabled(r, Begin(a, s)) && IsSlot(r.d, u)
    ensures var d' := Apply(r, Begin(a, s)).d; Shape(d') && IsSlot(d', u) && Holds(d', u) == Holds(r.d, u)
  {
    hide Inv, ZoneAt, Mark;
    MapPlaces(r.d, Mark(r.d).0);
  }

  lemma EndHolds(r: Race, a: nat, u: Slot)
    requires Inv(r) && Fits(r) && a in r.calls && Calm(r) && IsSlot(r.d, u) && Level(u) == 0
    ensures var d' := Apply(r, End(a)).d; Shape(d') && IsSlot(d', u) && Holds(d', u) == Holds(r.d, u)
  {
    hide Inv, ZoneAt, Sound, Put, Below, Owned, Bit;
    InvParts(r);
    var (d, m) := (r.d, r.calls[a]);
    assert !Contested(r, a);
    StoredShape(d, m.s, m.t, m.z);
    StoredZones(d, m.s, m.t, m.z, u);
    SoundRange(d, u);
    if Below(u, m.s) { BelowNothing(d, u, m.s); }
    if m.s.Sub? {
      assert IsSlot(d, m.s.parent) && Level(m.s.parent) > 0;
      assert !Lost(r, m.t);
      if ZoneAt(d, u) == m.t { SoundOwner(d, u, m.s.parent); }
    }
  }

  lemma StoreHolds(r: Race, s: Slot, pos: nat, chunk: seq<nat>, u: Slot)
    requires Inv(r) && Fits(r) && Enabled(r, Store(s, pos, chunk)) && IsSlot(r.d, u)
    ensures var d' := Apply(r, Store(s, pos, chunk)).d;
            && Shape(d') && IsSlot(d', u) && pos + |chunk| <= BLOCK_SIZE && |Holds(r.d, u)| == BLOCK_SIZE
            && Holds(d', u) == if s == u then Overlay(Holds(r.d, u), pos, chunk) else Holds(r.d, u)
  {
    hide Inv, ZoneAt, Sound, Owned, Overlay;
    InvParts(r);
    StoreKeeps(r, s, pos, chunk);
    InvParts(Apply(r, Store(s, pos, chunk)));
    if s != u && ZoneAt(r.d, u) == ZoneAt(r.d, s) { SoundOwner(r.d, u, s); }
  }

  /** Bytes copied one after the other. */
  ghost function Copied(b: Block, es: seq<Event>, u: Slot): Block
    requires |b| == BLOCK_SIZE
    decreases |es|
  {
    if es == [] then b
    else if es[0].Store? && es[0].s == u && es[0].pos + |es[0].chunk| <= BLOCK_SIZE
        then Copied(Overlay(b, es[0].pos, es[0].chunk), es[1..], u)
    else Copied(b, es[1..], u)
  }

  /** As long as no two calls make the same place at once, every block of every file holds what was copied into it, and
      nothing else, however the calls interleave. */
  lemma {:induction false} BytesArrive(r: Race, es: seq<Event>, u: Slot)
    requires Inv(r) && Fits(r) && Possible(r, es) && NoOverlap(r, es) && Calm(r) && IsSlot(r.d, u) && Level(u) == 0
    ensures |Holds(r.d, u)| == BLOCK_SIZE && IsSlot(Final(r, es).d, u)
    ensures Holds(Final(r, es).d, u) == Copied(Holds(r.d, u), es, u)
    decreases |es|
  {
    hide Inv, Fits, Apply, Calm, Overlaps, Enabled, Holds, Overlay, IsSlot, Level;
    ShapeOf(r);
    if es == [] {
      HoldsSize(r, u);
    } else {
      StepKeeps(r, es[0]);
      CalmStep(r, es[0]);
      StepHolds(r, es[0], u);
      BytesArrive(Apply(r, es[0]), es[1..], u);
    }
  }

  lemma HoldsSize(r: Race, u: Slot)
    requires Inv(r) && IsSlot(r.d, u)
    ensures |Holds(r.d, u)| == BLOCK_SIZE
  {
    hide ZoneAt, Owned;
  }

  /** Without interruption, Begin and End are the steps that _bmap takes at a missing place. */
  lemma AloneIsGiven(d: Disk, s: Slot, a: nat)
    requires ZoneOwnership.Inv(d) && IsSlot(d, s) && ParentThere(d, s) && ZoneAt(d, s) == 0 && NewBlock(d).1 != 0
    ensures var r := Race(d, map[]);
            && Inv(r) && Fits(r) && Enabled(r, Begin(a, s))
            && var r1 := Apply(r, Begin(a, s));
               Inv(r1) && Fits(r1) && Enabled(r1, End(a)) && Apply(r1, End(a)) == Race(Given(d, s), map[])
  {
    hide ZoneOwnership.Inv, Inv, Sound, Owned, Put;
    CalmIsOwnership(d);
    var r := Race(d, map[]);
    InvParts(r);
    StepKeeps(r, Begin(a, s));
    if s.Sub? { SoundRange(d, s.parent); }
    var r1 := Apply(r, Begin(a, s));
    assert r1.calls - {a} == map[];
  }

  /** Data can be copied into a block as soon as it is in its place. */
  lemma CopyFollows(d: Disk, s: Slot, pos: nat, chunk: seq<nat>)
    requires ZoneOwnership.Inv(d) && IsSlot(d, s) && Level(s) == 0 && ParentThere(d, s) && ZoneAt(d, s) == 0
    requires NewBlock(d).1 != 0 && pos + |chunk| <= BLOCK_SIZE && Bytes(chunk)
    ensures var r := Race(Given(d, s), map[]); Fits(r) && Enabled(r, Store(s, pos, chunk))
  {
    hide ZoneOwnership.Inv, Owned, Put, ZoneAt;
    GivenShape(d, s);
    GivenZones(d, s, s);
    ZoneOwnership.NewBlockIs(d);
  }
}

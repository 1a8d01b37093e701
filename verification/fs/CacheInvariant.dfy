/** What holds at every sleep point of the buffer cache. */
module CacheInvariant {
  import opened Basics
  import opened BufferCache

  /** The buffer a call holds a reference to, or -1. */
  function Token(c: Call): int {
    match c
    case HashWait(_, _, _, b) => b
    case LockWait(_, _, b) => b
    case SlotWait(_, _, b) => b
    case ReadWait(_, _, b) => b
    case Repeat(_, _, _) => -1
    case VictimWait(_, _, _, _) => -1
    case WriteLock(_) => -1
    case WriteSlot(_) => -1
  }

  ghost function Waiters(calls: map<nat, Call>, b: nat): (r: set<nat>)
    ensures forall a :: a in r <==> a in calls && Token(calls[a]) == b
  {
    set a | a in calls && Token(calls[a]) == b
  }

  /** b_count is the number of references handed out or held by calls in progress. */
  ghost predicate CountsRight(s: Cache) {
    && (forall b :: b in s.users ==> b < |s.bufs|)
    && (forall b :: 0 <= b < |s.bufs| ==> s.bufs[b].count == s.users[b] + |Waiters(s.calls, b)|)
  }

  /** Whoever is entitled to a buffer's lock: a request, or a call about to make one. */
  datatype Locker = Request(k: nat) | Caller(a: nat)

  ghost predicate Holds(s: Cache, x: Locker, b: nat) {
    match x
    case Request(k) => k < |s.slots| && s.slots[k].Busy? && s.slots[k].buf == b
    case Caller(a) => a in s.calls && (s.calls[a].SlotWait? || s.calls[a].WriteSlot?) && s.calls[a].buf == b
  }

  ghost predicate Reads(s: Cache, x: Locker, b: nat) {
    Holds(s, x, b) && match x
    case Request(k) => !s.slots[k].write
    case Caller(a) => s.calls[a].SlotWait?
  }

  ghost predicate WritePending(s: Cache, b: nat) {
    exists k :: 0 <= k < |s.slots| && s.slots[k].Busy? && s.slots[k].buf == b && s.slots[k].write
  }

  /** A buffer is locked exactly while one request, or one call about to make it, is responsible for it. */
  ghost predicate LocksRight(s: Cache) {
    && (forall x, y, b :: Holds(s, x, b) && Holds(s, y, b) ==> x == y)
    && (forall x, b: nat :: Holds(s, x, b) ==> b < |s.bufs| && s.bufs[b].lock && s.bufs[b].dev != 0)
    && (forall b :: 0 <= b < |s.bufs| && s.bufs[b].lock ==> exists x :: Holds(s, x, b))
  }

  /** No two buffers stand for the same block. */
  ghost predicate Unique(bufs: seq<Buf>) {
    forall i, j :: 0 <= i < |bufs| && 0 <= j < |bufs| && bufs[i].dev != 0 && Id(bufs[i]) == Id(bufs[j]) ==> i == j
  }

  /** A buffer that is clean, and not on its way to the disk, agrees with the disk;
      a buffer that is dirty is up to date; so is one being written, and none being read. */
  ghost predicate DataRight(s: Cache) {
    && (forall b :: 0 <= b < |s.bufs| && s.bufs[b].dirt ==> s.bufs[b].uptodate)
    && (forall b :: 0 <= b < |s.bufs| && s.bufs[b].uptodate && !s.bufs[b].dirt && !WritePending(s, b) ==>
          s.bufs[b].data == OnDisk(s.disk, Id(s.bufs[b])))
    && (forall x, b: nat :: Holds(s, x, b) && b < |s.bufs| ==> s.bufs[b].uptodate == !Reads(s, x, b))
  }

  /** Every call is about a real device, one that holds a reference holds the buffer it asked for,
      and one that waits for data has them, or a request that will bring them. */
  ghost predicate CallRight(s: Cache, c: Call) {
    && (!c.Repeat? ==> c.buf < |s.bufs|)
    && (!c.WriteLock? && !c.WriteSlot? ==> c.dev != 0)
    && (Token(c) >= 0 ==> Token(c) < |s.bufs| && Id(s.bufs[Token(c)]) == (c.dev, c.block))
    && (c.ReadWait? ==> s.bufs[c.buf].uptodate || s.bufs[c.buf].lock)
  }

  ghost predicate CallsRight(s: Cache) { forall a :: a in s.calls ==> CallRight(s, s.calls[a]) }

  /** A buffer in use, or with changes to write, stands for a block of a real device. */
  ghost predicate RealRight(s: Cache) {
    forall b :: 0 <= b < |s.bufs| && (s.bufs[b].count > 0 || s.bufs[b].dirt) ==> s.bufs[b].dev != 0
  }

  ghost predicate IsPermutation(p: seq<nat>, n: nat) {
    && |p| == n
    && (forall i :: 0 <= i < |p| ==> p[i] < n)
    && (forall i, j :: 0 <= i < j < |p| ==> p[i] != p[j])
    && (forall b: nat :: b < n ==> b in p)
  }

  /** The free list holds each buffer exactly once. */
  ghost predicate FreeRight(s: Cache) {
    IsPermutation(s.free, |s.bufs|)
  }

  /** The last third of the request array is for reads. */
  ghost predicate SlotsRight(s: Cache) {
    && |s.slots| == NR_REQUEST
    && (forall k :: 0 <= k < |s.slots| && s.slots[k].Busy? ==>
          s.slots[k].buf < |s.bufs| && (s.slots[k].write ==> k < WRITE_SLOTS))
  }

  ghost predicate Inv(s: Cache) {
    Unique(s.bufs) && CountsRight(s) && LocksRight(s) && DataRight(s) && CallsRight(s) && RealRight(s) &&
        FreeRight(s) && SlotsRight(s)
  }

  lemma InvIsWellFormed(s: Cache)
    requires Inv(s)
    ensures WellFormed(s)
  {
    forall a | a in s.calls && !s.calls[a].Repeat? ensures s.calls[a].buf < |s.bufs| {
      assert CallRight(s, s.calls[a]);
    }
  }

  // ---- The meaning: a flat block store ----

  /** What a read of a block must return: the buffer's data if it has any, the disk's otherwise. */
  ghost function Store(s: Cache, id: (nat, nat)): Data {
    var b := Find(s.bufs, id.0, id.1);
    if b >= 0 && s.bufs[b].uptodate then s.bufs[b].data else OnDisk(s.disk, id)
  }

  /** With one buffer per block, find_buffer finds the buffer. */
  lemma FindIs(bufs: seq<Buf>, b: nat)
    requires Unique(bufs) && b < |bufs| && bufs[b].dev != 0
    ensures Find(bufs, bufs[b].dev, bufs[b].block) == b
  {
  }

  /** The store changes only where a user changes it: step e, seen from outside. */
  ghost predicate StoreStep(s: Cache, e: Event, s': Cache) {
    forall id: (nat, nat) :: id.0 != 0 ==>
      match e
      case Modify(b, data) => b < |s.bufs| && Store(s', id) == if Id(s.bufs[b]) == id then data else Store(s, id)
      case Zero(b, zeros) => b < |s.bufs| && Store(s', id) == if Id(s.bufs[b]) == id then zeros else Store(s, id)
      case Discard(b) => b < |s.bufs| && (Id(s.bufs[b]) != id ==> Store(s', id) == Store(s, id))
      case Begin(_, _, _, _) => Store(s', id) == Store(s, id)
      case BeginWrite(_, _) => Store(s', id) == Store(s, id)
      case Run(_) => Store(s', id) == Store(s, id)
      case Settle(_, _) => Store(s', id) == Store(s, id)
      case File(_, _) => Store(s', id) == Store(s, id)
      case Complete(_, _) => Store(s', id) == Store(s, id)
      case Release(_) => Store(s', id) == Store(s, id)
  }

  /** A buffer in use or locked keeps standing for the same block. */
  ghost predicate IdentityStep(s: Cache, s': Cache) {
    |s'.bufs| == |s.bufs|
    && forall b :: 0 <= b < |s.bufs| && (s.bufs[b].lock || s.bufs[b].count > 0) ==> Id(s'.bufs[b]) == Id(s.bufs[b])
  }

  // ---- References ----

  lemma PutCall(calls: map<nat, Call>, a: nat, c: Call, b: nat)
    ensures |Waiters(calls[a := c], b)| ==
            |Waiters(calls, b)| - (if a in calls && Token(calls[a]) == b then 1 else 0) +
                (if Token(c) == b then 1 else 0)
  {
    var r := Waiters(calls, b) - {a};
    assert Waiters(calls[a := c], b) == if Token(c) == b then r + {a} else r;
    assert Waiters(calls, b) == if a in calls && Token(calls[a]) == b then r + {a} else r;
  }

  lemma DropCall(calls: map<nat, Call>, a: nat, b: nat)
    requires a in calls
    ensures |Waiters(calls - {a}, b)| == |Waiters(calls, b)| - (if Token(calls[a]) == b then 1 else 0)
  {
    var r := Waiters(calls, b) - {a};
    assert Waiters(calls - {a}, b) == r;
    assert Waiters(calls, b) == if Token(calls[a]) == b then r + {a} else r;
  }

  /** A reference handed out, or held by a call, is counted. */
  lemma InUse(s: Cache, b: nat)
    requires CountsRight(s) && b < |s.bufs| && (b in s.users || exists a :: a in s.calls && Token(s.calls[a]) == b)
    ensures s.bufs[b].count > 0
  {
    if b !in s.users {
      var a :| a in s.calls && Token(s.calls[a]) == b;
      assert a in Waiters(s.calls, b);
    }
  }
}

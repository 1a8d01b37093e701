/** The buffer cache as a state machine (linux-0.11/fs/buffer.c and
    linux-0.11/kernel/blk_drv/ll_rw_blk.c). No other process runs between two
    sleeps of a process, so each step below is the code from one sleep point to
    the next; any number of calls are in progress at once. Requests are completed
    by interrupts, and these are off in lock_buffer, wait_on_buffer and
    add_request. Only two scans read what an interrupt can change: that of the
    free list, and that of the request array. Events Settle and File are what
    they come to when requests are completed while they are under way. */
module BufferCache {

  import opened Basics

  const WRITE_SLOTS := 21    // (NR_REQUEST*2)/3: writes may use these only

  type Data = seq<nat>

  /** struct buffer_head, as far as the algorithm reads it. */
  datatype Buf = Buf(dev: nat, block: nat, uptodate: bool, dirt: bool, count: nat, lock: bool, data: Data)

  /** A slot of the request array. */
  datatype Slot = Empty | Busy(buf: nat, write: bool)

  /** Where a call of getblk, bread or ll_rw_block(WRITE) sleeps, or is about to run. */
  datatype Call =
    | Repeat(dev: nat, block: nat, read: bool)                // getblk at "repeat"; read: on behalf of bread
    | HashWait(dev: nat, block: nat, read: bool, buf: nat)    // get_hash_table, after b_count++
    | VictimWait(dev: nat, block: nat, read: bool, buf: nat)  // getblk, waiting for the buffer it wants to reuse
    | LockWait(dev: nat, block: nat, buf: nat)                // bread: lock_buffer of its read
    | SlotWait(dev: nat, block: nat, buf: nat)                // bread: locked, waiting for a request slot
    | ReadWait(dev: nat, block: nat, buf: nat)                // bread: wait_on_buffer
    | WriteLock(buf: nat)                                     // ll_rw_block(WRITE): lock_buffer
    | WriteSlot(buf: nat)                                     // ll_rw_block(WRITE): waiting for a slot

  /** bufs: the buffers; free: the free list, least recently claimed first;
      slots: the request array; disk; calls in progress; users: the references
      that returned calls have handed out. */
  datatype Cache = Cache(bufs: seq<Buf>, free: seq<nat>, slots: seq<Slot>, disk: map<(nat, nat), Data>,
                         calls: map<nat, Call>, users: multiset<nat>)

  function OnDisk(disk: map<(nat, nat), Data>, id: (nat, nat)): Data {
    if id in disk then disk[id] else []
  }

  function Id(b: Buf): (nat, nat) { (b.dev, b.block) }

  /** find_buffer: the buffer of a block, or -1. */
  function Find(bufs: seq<Buf>, dev: nat, block: nat): (r: int)
    ensures -1 <= r < |bufs|
    ensures r >= 0 ==> bufs[r].dev == dev && bufs[r].block == block
    ensures r == -1 ==> forall i :: 0 <= i < |bufs| ==> Id(bufs[i]) != (dev, block)
  {
    if bufs == [] then -1
    else if Id(bufs[|bufs| - 1]) == (dev, block) then |bufs| - 1
    else Find(bufs[..|bufs| - 1], dev, block)
  }

  /** BADNESS(bh) */
  function Badness(b: Buf): nat { (if b.dirt then 2 else 0) + (if b.lock then 1 else 0) }

  /** getblk's scan of the free list from position k, with `best` found so far (-1: none):
      the first unused buffer that is clean and unlocked, else the first of least badness. */
  function Victim(bufs: seq<Buf>, free: seq<nat>, k: nat, best: int): (r: int)
    requires k <= |free| && (forall i :: 0 <= i < |free| ==> free[i] < |bufs|) && -1 <= best < |bufs|
    requires best >= 0 ==> bufs[best].count == 0
    ensures -1 <= r < |bufs| && (r >= 0 ==> bufs[r].count == 0)
    ensures best >= 0 ==> r >= 0 && Badness(bufs[r]) <= Badness(bufs[best])
    ensures forall i :: k <= i < |free| && bufs[free[i]].count == 0 ==>
              r >= 0 && Badness(bufs[r]) <= Badness(bufs[free[i]])
    decreases |free| - k
  {
    if k == |free| then best
    else
      var b := free[k];
      if bufs[b].count == 0 && (best < 0 || Badness(bufs[b]) < Badness(bufs[best])) then
        if Badness(bufs[b]) == 0 then b else Victim(bufs, free, k + 1, b)
      else Victim(bufs, free, k + 1, best)
  }

  /** Position of the slot a new request gets: the last empty one below n, or -1. */
  function FreeSlot(slots: seq<Slot>, n: nat): (r: int)
    requires n <= |slots|
    ensures -1 <= r < n
    ensures r >= 0 ==> slots[r].Empty?
    ensures r == -1 ==> forall i :: 0 <= i < n ==> !slots[i].Empty?
  {
    if n == 0 then -1 else if slots[n - 1].Empty? then n - 1 else FreeSlot(slots, n - 1)
  }

  // ---- Steps ----

  datatype Event =
    | Begin(a: nat, dev: nat, block: nat, read: bool)    // getblk (or bread) is called
    | BeginWrite(a: nat, buf: nat)                       // ll_rw_block(WRITE, bh), by sync_dev or sys_sync
    | Run(a: nat)                                        // call a runs to its next sleep point or returns
    | Settle(a: nat, buf: nat)                           // getblk's scan is interrupted: some unused buffer
    | File(a: nat, slot: nat)                            // make_request's scan likewise: some empty slot
    | Complete(slot: nat, torn: Data)                    // the device finishes a request
    | Modify(buf: nat, data: Data)                       // a user changes the data and sets b_dirt
    | Zero(buf: nat, zeros: Data)                        // new_block clears a block just got
    | Discard(buf: nat)                                  // free_block drops the data of a block
    | Release(buf: nat)                                  // brelse

  function SetBuf(s: Cache, b: nat, v: Buf): Cache
    requires b < |s.bufs|
  {
    s.(bufs := s.bufs[b := v])
  }

  ghost predicate WellFormed(s: Cache) {
    && (forall i :: 0 <= i < |s.free| ==> s.free[i] < |s.bufs|)
    && |s.slots| == NR_REQUEST
    && (forall i :: 0 <= i < |s.slots| && s.slots[i].Busy? ==> s.slots[i].buf < |s.bufs|)
    && (forall a :: a in s.calls && !s.calls[a].Repeat? ==> s.calls[a].buf < |s.bufs|)
  }

  /** What has to be so for an event to happen. */
  ghost predicate Enabled(s: Cache, e: Event)
    requires WellFormed(s)
  {
    match e
    case Begin(a, dev, block, read) => a !in s.calls && dev != 0
    case BeginWrite(a, b) => a !in s.calls && b < |s.bufs| && s.bufs[b].dev != 0
    case Run(a) => a in s.calls && CanRun(s, s.calls[a])
    case Settle(a, b) =>
      && a in s.calls && s.calls[a].Repeat? && Find(s.bufs, s.calls[a].dev, s.calls[a].block) < 0
      && b < |s.bufs| && s.bufs[b].count == 0
    case File(a, k) =>
      && a in s.calls && (s.calls[a].SlotWait? || s.calls[a].WriteSlot?)
      && k < (if s.calls[a].SlotWait? then NR_REQUEST else WRITE_SLOTS) && s.slots[k].Empty?
    case Complete(k, _) => k < |s.slots| && s.slots[k].Busy?
    case Modify(b, _) => b in s.users && b < |s.bufs| && s.bufs[b].uptodate
    case Zero(b, _) => b in s.users && b < |s.bufs| && s.bufs[b].count == 1 && !s.bufs[b].lock
    case Discard(b) => b in s.users && b < |s.bufs| && s.bufs[b].count == 1 && !s.bufs[b].lock
    case Release(b) => b in s.users && b < |s.bufs| && !s.bufs[b].lock
  }

  /** The condition each sleep waits for. */
  predicate CanRun(s: Cache, c: Call)
    requires |s.slots| == NR_REQUEST && (!c.Repeat? ==> c.buf < |s.bufs|)
  {
    match c
    case Repeat(_, _, _) => true
    case HashWait(_, _, _, b) => !s.bufs[b].lock
    case VictimWait(_, _, _, b) => !s.bufs[b].lock
    case LockWait(_, _, b) => !s.bufs[b].lock
    case SlotWait(_, _, _) => FreeSlot(s.slots, NR_REQUEST) >= 0
    case ReadWait(_, _, b) => !s.bufs[b].lock
    case WriteLock(b) => !s.bufs[b].lock
    case WriteSlot(_) => FreeSlot(s.slots, WRITE_SLOTS) >= 0
  }

  /** getblk returns buffer b: to bread, which goes on to read it, or to the caller. */
  function Got(s: Cache, a: nat, dev: nat, block: nat, read: bool, b: nat): Cache
    requires b < |s.bufs|
  {
    if read && !s.bufs[b].uptodate then s.(calls := s.calls[a := LockWait(dev, block, b)])
    else s.(calls := s.calls - {a}, users := s.users + multiset{b})
  }

  /** The end of getblk: buffer b becomes the buffer of (dev, block). */
  function Claim(s: Cache, b: nat, dev: nat, block: nat): Cache
    requires b < |s.bufs|
  {
    SetBuf(s, b, s.bufs[b].(count := 1, dirt := false, uptodate := false, dev := dev, block := block))
      .(free := Without(s.free, b) + [b])
  }

  // One function per sleep point: what the call does when it runs again.

  function RunRepeat(s: Cache, a: nat, dev: nat, block: nat, read: bool): Cache
    requires forall i :: 0 <= i < |s.free| ==> s.free[i] < |s.bufs|
  {
    var b := Find(s.bufs, dev, block);
    if b >= 0 then
      SetBuf(s, b, s.bufs[b].(count := s.bufs[b].count + 1)).(calls := s.calls[a := HashWait(dev, block, read, b)])
    else
      var v := Victim(s.bufs, s.free, 0, -1);
      // no unused buffer: sleep on buffer_wait, then start again
      if v < 0 then s else s.(calls := s.calls[a := VictimWait(dev, block, read, v)])
  }

  function RunHashWait(s: Cache, a: nat, dev: nat, block: nat, read: bool, b: nat): Cache
    requires b < |s.bufs|
  {
    if Id(s.bufs[b]) == (dev, block) then Got(s, a, dev, block, read, b)
    else if s.bufs[b].count == 0 then s
    else SetBuf(s, b, s.bufs[b].(count := s.bufs[b].count - 1)).(calls := s.calls[a := Repeat(dev, block, read)])
  }

  function RunVictimWait(s: Cache, a: nat, dev: nat, block: nat, read: bool, b: nat): Cache
    requires b < |s.bufs|
  {
    if s.bufs[b].count > 0 then s.(calls := s.calls[a := Repeat(dev, block, read)])
    else if s.bufs[b].dirt then s   // sync_dev, then wait for the buffer again
    else if Find(s.bufs, dev, block) >= 0 then s.(calls := s.calls[a := Repeat(dev, block, read)])
    else Got(Claim(s, b, dev, block), a, dev, block, read, b)
  }

  function RunLockWait(s: Cache, a: nat, dev: nat, block: nat, b: nat): Cache
    requires b < |s.bufs|
  {
    if s.bufs[b].uptodate then s.(calls := s.calls[a := ReadWait(dev, block, b)])
    else SetBuf(s, b, s.bufs[b].(lock := true)).(calls := s.calls[a := SlotWait(dev, block, b)])
  }

  function RunReadWait(s: Cache, a: nat, b: nat): Cache
    requires b < |s.bufs|
  {
    if s.bufs[b].uptodate then s.(calls := s.calls - {a}, users := s.users + multiset{b})
    else if s.bufs[b].count == 0 then s
    else SetBuf(s, b, s.bufs[b].(count := s.bufs[b].count - 1)).(calls := s.calls - {a})
  }

  function RunWriteLock(s: Cache, a: nat, b: nat): Cache
    requires b < |s.bufs|
  {
    if !s.bufs[b].dirt then s.(calls := s.calls - {a})
    else SetBuf(s, b, s.bufs[b].(lock := true)).(calls := s.calls[a := WriteSlot(b)])
  }

  /** add_request, with slot k; the call goes on as in `calls`. */
  function AddRequest(s: Cache, b: nat, k: nat, write: bool, calls: map<nat, Call>): Cache
    requires b < |s.bufs| && k < |s.slots|
  {
    SetBuf(s, b, s.bufs[b].(dirt := false)).(slots := s.slots[k := Busy(b, write)], calls := calls)
  }

  /** make_request has found slot k. */
  function Filed(s: Cache, a: nat, k: nat): Cache
    requires a in s.calls && (s.calls[a].SlotWait? || s.calls[a].WriteSlot?) && s.calls[a].buf < |s.bufs|
    requires k < |s.slots|
  {
    match s.calls[a]
    case SlotWait(dev, block, b) => AddRequest(s, b, k, false, s.calls[a := ReadWait(dev, block, b)])
    case WriteSlot(b) => AddRequest(s, b, k, true, s.calls - {a})
  }

  function RunCall(s: Cache, a: nat): Cache
    requires |s.slots| == NR_REQUEST && forall i :: 0 <= i < |s.free| ==> s.free[i] < |s.bufs|
    requires a in s.calls && (!s.calls[a].Repeat? ==> s.calls[a].buf < |s.bufs|)
    requires CanRun(s, s.calls[a])
  {
    match s.calls[a]
    case Repeat(dev, block, read) => RunRepeat(s, a, dev, block, read)
    case HashWait(dev, block, read, b) => RunHashWait(s, a, dev, block, read, b)
    case VictimWait(dev, block, read, b) => RunVictimWait(s, a, dev, block, read, b)
    case LockWait(dev, block, b) => RunLockWait(s, a, dev, block, b)
    case SlotWait(dev, block, b) => Filed(s, a, FreeSlot(s.slots, NR_REQUEST))
    case ReadWait(dev, block, b) => RunReadWait(s, a, b)
    case WriteLock(b) => RunWriteLock(s, a, b)
    case WriteSlot(b) => Filed(s, a, FreeSlot(s.slots, WRITE_SLOTS))
  }

  /** end_request(1). A write that raced with a change of the data may have
      put anything on the disk; the buffer is dirty then. */
  function EndRequest(s: Cache, k: nat, torn: Data): Cache
    requires k < |s.slots| && s.slots[k].Busy? && s.slots[k].buf < |s.bufs|
  {
    var b := s.slots[k].buf;
    var v := s.bufs[b];
    var s1 := s.(slots := s.slots[k := Empty]);
    if s.slots[k].write then
      SetBuf(s1, b, v.(uptodate := true, lock := false)).(disk := s.disk[Id(v) := if v.dirt then torn else v.data])
    else
      SetBuf(s1, b, v.(uptodate := true, lock := false, data := OnDisk(s.disk, Id(v))))
  }

  ghost function Apply(s: Cache, e: Event): Cache
    requires WellFormed(s) && Enabled(s, e)
  {
    match e
    case Begin(a, dev, block, read) => s.(calls := s.calls[a := Repeat(dev, block, read)])
    case BeginWrite(a, b) => s.(calls := s.calls[a := WriteLock(b)])
    case Run(a) => RunCall(s, a)
    case Settle(a, b) =>
      var c := s.calls[a];
      s.(calls := s.calls[a := VictimWait(c.dev, c.block, c.read, b)])
    case File(a, k) => Filed(s, a, k)
    case Complete(k, torn) => EndRequest(s, k, torn)
    case Modify(b, data) => SetBuf(s, b, s.bufs[b].(data := data, dirt := true))
    case Zero(b, zeros) => SetBuf(s, b, s.bufs[b].(data := zeros, uptodate := true, dirt := true))
    case Discard(b) => SetBuf(s, b, s.bufs[b].(uptodate := false, dirt := false))
    case Release(b) =>
      if s.bufs[b].count == 0 then s
      else SetBuf(s, b, s.bufs[b].(count := s.bufs[b].count - 1)).(users := s.users - multiset{b})
  }
}

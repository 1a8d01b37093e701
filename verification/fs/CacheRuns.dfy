/** Whole runs of the buffer cache: any interleaving of calls, users and device
    completions behaves like one flat array of blocks. */
module CacheRuns {
  import opened BufferCache
  import opened CacheInvariant
  import opened CacheSteps
  import opened Basics

  /** Every event of the run can happen when its turn comes. */
  ghost predicate Possible(s: Cache, es: seq<Event>)
    requires Inv(s) && WellFormed(s)
    decreases |es|
  {
    es == [] || (Enabled(s, es[0]) && (Goes(s, es[0]); Possible(Apply(s, es[0]), es[1..])))
  }

  lemma Goes(s: Cache, e: Event)
    requires Inv(s) && WellFormed(s) && Enabled(s, e)
    ensures Inv(Apply(s, e)) && WellFormed(Apply(s, e))
  {
    hide Inv, Apply;
    FirstStep(s, e, (1, 0), Unknown);
  }

  ghost function Final(s: Cache, es: seq<Event>): (r: Cache)
    requires Inv(s) && WellFormed(s) && Possible(s, es)
    ensures Inv(r) && WellFormed(r)
    decreases |es|
  {
    if es == [] then s
    else
      Goes(s, es[0]);
      Final(Apply(s, es[0]), es[1..])
  }

  /** What is known of a block's contents: nothing after its buffer was discarded. */
  datatype Knowledge = Known(data: Data) | Unknown

  /** The flat store: an event that changes the block the user's buffer stands for
      sets the contents; no other event does anything. */
  ghost function After(s: Cache, e: Event, id: (nat, nat), now: Knowledge): Knowledge
    requires WellFormed(s) && Enabled(s, e)
  {
    match e
    case Modify(b, data) => if Id(s.bufs[b]) == id then Known(data) else now
    case Zero(b, zeros) => if Id(s.bufs[b]) == id then Known(zeros) else now
    case Discard(b) => if Id(s.bufs[b]) == id then Unknown else now
    case _ => now
  }

  ghost function Latest(s: Cache, es: seq<Event>, id: (nat, nat), now: Knowledge): Knowledge
    requires Inv(s) && WellFormed(s) && Possible(s, es)
    decreases |es|
  {
    if es == [] then now
    else
      Goes(s, es[0]);
      Latest(Apply(s, es[0]), es[1..], id, After(s, es[0], id, now))
  }

  ghost predicate Agrees(s: Cache, id: (nat, nat), now: Knowledge) { now.Known? ==> Store(s, id) == now.data }

  lemma FirstStep(s: Cache, e: Event, id: (nat, nat), now: Knowledge)
    requires Inv(s) && WellFormed(s) && Enabled(s, e) && id.0 != 0 && Agrees(s, id, now)
    ensures Inv(Apply(s, e)) && WellFormed(Apply(s, e)) && Agrees(Apply(s, e), id, After(s, e, id, now))
  {
    hide Inv, Store, Apply, IdentityStep;
    StepKeeps(s, e);
    InvIsWellFormed(Apply(s, e));
  }

  /** The invariant holds after every run, and each block holds what was last written to it. */
  lemma {:induction false} RunIsFlatStore(s: Cache, es: seq<Event>, id: (nat, nat), now: Knowledge)
    requires Inv(s) && WellFormed(s) && Possible(s, es) && id.0 != 0 && Agrees(s, id, now)
    ensures Inv(Final(s, es)) && Agrees(Final(s, es), id, Latest(s, es, id, now))
    decreases |es|
  {
    hide Inv, Agrees, Apply, Enabled, WellFormed, After;
    if es != [] {
      Goes(s, es[0]);
      FirstStep(s, es[0], id, now);
      RunIsFlatStore(Apply(s, es[0]), es[1..], id, After(s, es[0], id, now));
    }
  }

  /** buffer_init: n buffers of no device, all on the free list. */
  ghost function Boot(n: nat, disk: map<(nat, nat), Data>): (s: Cache)
    ensures Inv(s) && WellFormed(s)
  {
    var s := Cache(seq(n, _ => Buf(0, 0, false, false, 0, false, [])), seq(n, i => i), seq(NR_REQUEST, _ => Empty),
        disk, map[], multiset{});
    assert forall b: nat :: Waiters(s.calls, b) == {};
    InOrder(n);
    assert FreeRight(s);
    s
  }

  lemma InOrder(n: nat)
    ensures IsPermutation(seq(n, i => i), n)
  {
    var p := seq(n, i => i);
    forall b: nat | b < n ensures b in p { assert p[b] == b; }
  }

  lemma BootStore(n: nat, disk: map<(nat, nat), Data>, id: (nat, nat))
    requires id.0 != 0
    ensures Store(Boot(n, disk), id) == OnDisk(disk, id)
  {
  }

  /** A call that has to deliver the contents of a block. */
  ghost predicate IsBread(c: Call) {
    c.LockWait? || c.SlotWait? || c.ReadWait? || ((c.Repeat? || c.HashWait? || c.VictimWait?) && c.read)
  }

  /** When bread returns, it returns a buffer for the block it was asked for, up to date,
      and with the block's contents. */
  lemma BreadReturns(s: Cache, a: nat)
    requires Inv(s) && WellFormed(s) && Enabled(s, Run(a)) && IsBread(s.calls[a]) && a !in Apply(s, Run(a)).calls
    ensures !s.calls[a].Repeat?
    ensures var (b, id, s') := (s.calls[a].buf, (s.calls[a].dev, s.calls[a].block), Apply(s, Run(a)));
            && id.0 != 0 && b < |s'.bufs| && s'.users == s.users + multiset{b} && Id(s'.bufs[b]) == id
            && s'.bufs[b].uptodate && s'.bufs[b].data == Store(s, id)
  {
    hide CountsRight, LocksRight, FreeRight, SlotsRight, RealRight, Find, Victim, FreeSlot, Without;
    CallFits(s, a);
    var c := s.calls[a];
    if c.HashWait? {
      FindIs(s.bufs, c.buf);
    } else {
      assert c.ReadWait?;
      FindIs(s.bufs, c.buf);
    }
  }

  /** From boot on, over every interleaving: bread returns the last contents written to the
      block, or what the disk held at boot, unless the block's buffer was discarded since. */
  lemma BreadReturnsLatest(n: nat, disk: map<(nat, nat), Data>, es: seq<Event>, a: nat)
    requires Possible(Boot(n, disk), es)
    requires var s := Final(Boot(n, disk), es);
             Enabled(s, Run(a)) && IsBread(s.calls[a]) && a !in Apply(s, Run(a)).calls
    ensures var (s0, s) := (Boot(n, disk), Final(Boot(n, disk), es));
            && !s.calls[a].Repeat?
            && var (b, id, s') := (s.calls[a].buf, (s.calls[a].dev, s.calls[a].block), Apply(s, Run(a)));
               && b < |s'.bufs| && b in s'.users && Id(s'.bufs[b]) == id && s'.bufs[b].uptodate
               && var known := Latest(s0, es, id, Known(OnDisk(disk, id)));
                  known.Known? ==> s'.bufs[b].data == known.data
  {
    var (s0, s) := (Boot(n, disk), Final(Boot(n, disk), es));
    hide Inv, Store, Apply, Enabled, WellFormed, After, Boot;
    BreadReturns(s, a);
    var id := (s.calls[a].dev, s.calls[a].block);
    BootStore(n, disk, id);
    RunIsFlatStore(s0, es, id, Known(OnDisk(disk, id)));
  }

  /** A buffer changes identity only at the end of getblk, and only when nobody uses it, it is
      unlocked and clean, and the disk has its contents. */
  lemma VictimIsFree(s: Cache, e: Event, b: nat)
    requires Inv(s) && WellFormed(s) && Enabled(s, e) && b < |s.bufs| && |Apply(s, e).bufs| == |s.bufs|
    requires Id(Apply(s, e).bufs[b]) != Id(s.bufs[b])
    ensures e.Run? && s.calls[e.a].VictimWait? && s.calls[e.a].buf == b
    ensures b !in s.users && s.bufs[b].count == 0 && !s.bufs[b].lock && !s.bufs[b].dirt
    ensures s.bufs[b].uptodate ==> OnDisk(s.disk, Id(s.bufs[b])) == s.bufs[b].data
    ensures Id(Apply(s, e).bufs[b]) == (s.calls[e.a].dev, s.calls[e.a].block) && forall i :: 0 <= i < |s.bufs| ==>
              Id(s.bufs[i]) != Id(Apply(s, e).bufs[b])
  {
    hide Inv;
    OnlyClaims(s, e, b);
    CleanOnDisk(s, b);
  }

  lemma OnlyClaims(s: Cache, e: Event, b: nat)
    requires WellFormed(s) && Enabled(s, e) && b < |s.bufs| && |Apply(s, e).bufs| == |s.bufs|
    requires Id(Apply(s, e).bufs[b]) != Id(s.bufs[b])
    ensures e.Run? && s.calls[e.a].VictimWait? && s.calls[e.a].buf == b
    ensures s.bufs[b].count == 0 && !s.bufs[b].lock && !s.bufs[b].dirt
    ensures Find(s.bufs, s.calls[e.a].dev, s.calls[e.a].block) < 0
    ensures Id(Apply(s, e).bufs[b]) == (s.calls[e.a].dev, s.calls[e.a].block)
  {
    hide Apply, Find;
    if e.Run? {
      RunIs(s, e.a);
      RunClaims(s, e.a, b);
    } else {
      OthersSameId(s, e, b);
    }
  }

  lemma RunIs(s: Cache, a: nat)
    requires WellFormed(s) && Enabled(s, Run(a))
    ensures Apply(s, Run(a)) == RunCall(s, a)
  {
    hide RunCall;
  }

  lemma OthersSameId(s: Cache, e: Event, b: nat)
    requires WellFormed(s) && Enabled(s, e) && b < |s.bufs| && !e.Run?
    ensures |Apply(s, e).bufs| == |s.bufs| && Id(Apply(s, e).bufs[b]) == Id(s.bufs[b])
  {
    hide RunCall, Find, FreeSlot, OnDisk, Filed;
    if e.File? { FiledId(s, e.a, e.slot, b); }
  }

  lemma FiledId(s: Cache, a: nat, k: nat, b: nat)
    requires a in s.calls && (s.calls[a].SlotWait? || s.calls[a].WriteSlot?) && s.calls[a].buf < |s.bufs|
    requires k < |s.slots| && b < |s.bufs|
    ensures |Filed(s, a, k).bufs| == |s.bufs| && Id(Filed(s, a, k).bufs[b]) == Id(s.bufs[b])
  {
  }

  lemma RunClaims(s: Cache, a: nat, b: nat)
    requires WellFormed(s) && a in s.calls && CanRun(s, s.calls[a]) && b < |s.bufs|
    requires |RunCall(s, a).bufs| == |s.bufs| && Id(RunCall(s, a).bufs[b]) != Id(s.bufs[b])
    ensures s.calls[a].VictimWait? && s.calls[a].buf == b
    ensures s.bufs[b].count == 0 && !s.bufs[b].lock && !s.bufs[b].dirt
    ensures Find(s.bufs, s.calls[a].dev, s.calls[a].block) < 0
    ensures Id(RunCall(s, a).bufs[b]) == (s.calls[a].dev, s.calls[a].block)
  {
    hide Find, Victim, FreeSlot, Without;
    var c := s.calls[a];
    if !c.VictimWait? { OthersKeepIds(s, a, b); }
  }

  lemma OthersKeepIds(s: Cache, a: nat, b: nat)
    requires WellFormed(s) && a in s.calls && CanRun(s, s.calls[a]) && b < |s.bufs| && !s.calls[a].VictimWait?
    ensures |RunCall(s, a).bufs| == |s.bufs| && Id(RunCall(s, a).bufs[b]) == Id(s.bufs[b])
  {
    hide Find, Victim, FreeSlot, RunRepeat, RunHashWait, RunLockWait, RunReadWait, RunWriteLock, AddRequest, SetBuf, Id;
    OtherStep(s, a, b);
  }

  lemma OtherStep(s: Cache, a: nat, b: nat)
    requires WellFormed(s) && a in s.calls && CanRun(s, s.calls[a]) && b < |s.bufs|
    ensures var c := s.calls[a];
            match c
            case Repeat(dev, block, read) => SameId(s, RunRepeat(s, a, dev, block, read), b)
            case HashWait(dev, block, read, x) => SameId(s, RunHashWait(s, a, dev, block, read, x), b)
            case LockWait(dev, block, x) => SameId(s, RunLockWait(s, a, dev, block, x), b)
            case ReadWait(_, _, x) => SameId(s, RunReadWait(s, a, x), b)
            case WriteLock(x) => SameId(s, RunWriteLock(s, a, x), b)
            case _ => true
    ensures forall x, k: nat, write, calls :: 0 <= x < |s.bufs| && k < |s.slots| ==>
              SameId(s, AddRequest(s, x, k, write, calls), b)
  {
    hide Find, Victim, FreeSlot, Without;
  }

  ghost predicate SameId(s: Cache, s': Cache, b: nat) {
    |s'.bufs| == |s.bufs| && (b < |s.bufs| ==> Id(s'.bufs[b]) == Id(s.bufs[b]))
  }

  lemma CleanOnDisk(s: Cache, b: nat)
    requires Inv(s) && b < |s.bufs| && s.bufs[b].count == 0 && !s.bufs[b].lock && !s.bufs[b].dirt
    ensures b !in s.users && (s.bufs[b].uptodate ==> OnDisk(s.disk, Id(s.bufs[b])) == s.bufs[b].data)
  {
    if WritePending(s, b) {
      var k :| 0 <= k < |s.slots| && s.slots[k].Busy? && s.slots[k].buf == b;
      assert Holds(s, Request(k), b);
    }
  }

  /** Two requests that wait at the same time are for different blocks: the request list has no equal ones. */
  lemma RequestsDiffer(s: Cache, j: nat, k: nat)
    requires Inv(s) && j < k < |s.slots| && s.slots[j].Busy? && s.slots[k].Busy?
    ensures s.slots[j].buf < |s.bufs| && s.slots[k].buf < |s.bufs|
    ensures Id(s.bufs[s.slots[j].buf]) != Id(s.bufs[s.slots[k].buf])
  {
    hide CountsRight, DataRight, CallsRight, FreeRight;
    assert Holds(s, Request(j), s.slots[j].buf);
    assert Holds(s, Request(k), s.slots[k].buf);
  }
}

/** Write-back (ll_rw_block(WRITE), as sync_dev and sys_sync call it; linux-0.11/fs/buffer.c:44-83): what was changed
    in a buffer gets to the disk. */
module WriteBack {
  import opened BufferCache
  import opened CacheInvariant
  import opened CacheSteps
  import opened CacheRuns
  import opened Basics

  /** An event that changes the contents of block id, or gives them up. */
  ghost predicate Touches(s: Cache, e: Event, id: (nat, nat)) {
    (e.Modify? || e.Zero? || e.Discard?) && e.buf < |s.bufs| && Id(s.bufs[e.buf]) == id
  }

  ghost predicate Untouched(s: Cache, es: seq<Event>, id: (nat, nat))
    requires Inv(s) && WellFormed(s) && Possible(s, es)
    decreases |es|
  {
    es == [] || (!Touches(s, es[0], id) && (Goes(s, es[0]); Untouched(Apply(s, es[0]), es[1..], id)))
  }

  /** Call a is there to write buffer b, which has changes of block id. */
  ghost predicate Owes(s: Cache, a: nat, b: nat, id: (nat, nat)) {
    && a in s.calls && (s.calls[a] == WriteLock(b) || s.calls[a] == WriteSlot(b))
    && b < |s.bufs| && s.bufs[b].dirt && Id(s.bufs[b]) == id
  }

  ghost predicate Clean(s: Cache, id: (nat, nat)) {
    forall b :: 0 <= b < |s.bufs| && Id(s.bufs[b]) == id ==> !s.bufs[b].dirt
  }

  /** No request is waiting or being served for block id. */
  ghost predicate NoRequest(s: Cache, id: (nat, nat)) {
    forall k :: 0 <= k < |s.slots| && s.slots[k].Busy? && s.slots[k].buf < |s.bufs| ==> Id(s.bufs[s.slots[k].buf]) != id
  }

  // ---- One step ----

  /** What a step does to the buffers, apart from giving one a new identity: b_dirt is set only by users. */
  ghost predicate DirtStep(s: Cache, s': Cache, b: nat) {
    && |s'.bufs| == |s.bufs|
    && (b < |s.bufs| ==> s'.bufs[b].dirt ==> s.bufs[b].dirt && Id(s'.bufs[b]) == Id(s.bufs[b]))
  }

  lemma RunDirt(s: Cache, a: nat, b: nat)
    requires WellFormed(s) && a in s.calls && CanRun(s, s.calls[a])
    ensures DirtStep(s, RunCall(s, a), b)
  {
    hide Find, Victim, FreeSlot, Without, RunRepeat, RunHashWait, RunVictimWait, RunLockWait, RunReadWait, RunWriteLock,
         AddRequest, DirtStep;
    RunDirts(s, a, b);
  }

  lemma RunDirts(s: Cache, a: nat, b: nat)
    requires WellFormed(s) && a in s.calls && CanRun(s, s.calls[a])
    ensures var c := s.calls[a];
            match c
            case Repeat(dev, block, read) => DirtStep(s, RunRepeat(s, a, dev, block, read), b)
            case HashWait(dev, block, read, x) => DirtStep(s, RunHashWait(s, a, dev, block, read, x), b)
            case VictimWait(dev, block, read, x) => DirtStep(s, RunVictimWait(s, a, dev, block, read, x), b)
            case LockWait(dev, block, x) => DirtStep(s, RunLockWait(s, a, dev, block, x), b)
            case ReadWait(_, _, x) => DirtStep(s, RunReadWait(s, a, x), b)
            case WriteLock(x) => DirtStep(s, RunWriteLock(s, a, x), b)
            case _ => true
    ensures forall x, k: nat, write, calls :: 0 <= x < |s.bufs| && k < |s.slots| ==>
              DirtStep(s, AddRequest(s, x, k, write, calls), b)
  {
    hide Find, Victim, FreeSlot, Without;
  }

  lemma OtherDirt(s: Cache, e: Event, b: nat)
    requires WellFormed(s) && Enabled(s, e) && !e.Run? && !((e.Modify? || e.Zero? || e.Discard?) && e.buf == b)
    ensures DirtStep(s, Apply(s, e), b)
  {
    hide RunCall, Find, FreeSlot, OnDisk;
  }

  lemma StepDirt(s: Cache, e: Event, b: nat)
    requires WellFormed(s) && Enabled(s, e) && !((e.Modify? || e.Zero? || e.Discard?) && e.buf == b)
    ensures DirtStep(s, Apply(s, e), b)
  {
    hide DirtStep, RunCall, WellFormed;
    if e.Run? { RunParts(s, e.a); RunDirt(s, e.a, b); } else { OtherDirt(s, e, b); }
  }

  lemma RunParts(s: Cache, a: nat)
    requires WellFormed(s) && Enabled(s, Run(a))
    ensures a in s.calls && |s.slots| == NR_REQUEST && (!s.calls[a].Repeat? ==> s.calls[a].buf < |s.bufs|)
    ensures CanRun(s, s.calls[a]) && Apply(s, Run(a)) == RunCall(s, a)
  {
    hide RunCall;
  }

  lemma StaysClean(s: Cache, e: Event, id: (nat, nat))
    requires WellFormed(s) && Enabled(s, e) && !Touches(s, e, id) && Clean(s, id)
    ensures Clean(Apply(s, e), id)
  {
    hide Apply, Enabled, WellFormed;
    var s' := Apply(s, e);
    forall b | 0 <= b < |s'.bufs| && Id(s'.bufs[b]) == id ensures !s'.bufs[b].dirt {
      if (e.Modify? || e.Zero? || e.Discard?) && e.buf == b {
        TouchedId(s, e);
      } else {
        StepDirt(s, e, b);
      }
    }
  }

  lemma TouchedId(s: Cache, e: Event)
    requires WellFormed(s) && Enabled(s, e) && (e.Modify? || e.Zero? || e.Discard?)
    ensures e.buf < |s.bufs| == |Apply(s, e).bufs| && Id(Apply(s, e).bufs[e.buf]) == Id(s.bufs[e.buf])
  {
  }

  /** A call is moved by its own steps only. */
  lemma OtherCalls(s: Cache, e: Event, a: nat)
    requires WellFormed(s) && Enabled(s, e) && a in s.calls
    requires !((e.Run? || e.Settle? || e.File?) && e.a == a)
    ensures a in Apply(s, e).calls && Apply(s, e).calls[a] == s.calls[a]
  {
    hide RunCall, Filed, Find, FreeSlot, OnDisk;
    if e.Run? { RunParts(s, e.a); RunOthers(s, e.a, a); }
    if e.File? { FileOthers(s, e.a, e.slot, a); }
  }

  lemma FileOthers(s: Cache, x: nat, k: nat, a: nat)
    requires x in s.calls && (s.calls[x].SlotWait? || s.calls[x].WriteSlot?) && s.calls[x].buf < |s.bufs|
    requires k < |s.slots| && a in s.calls && a != x
    ensures a in Filed(s, x, k).calls && Filed(s, x, k).calls[a] == s.calls[a]
  {
  }

  lemma RunOthers(s: Cache, x: nat, a: nat)
    requires WellFormed(s) && x in s.calls && CanRun(s, s.calls[x]) && a in s.calls && a != x
    ensures a in RunCall(s, x).calls && RunCall(s, x).calls[a] == s.calls[a]
  {
    hide Find, Victim, FreeSlot, Without, Filed;
    if s.calls[x].SlotWait? { FileOthers(s, x, FreeSlot(s.slots, NR_REQUEST), a); }
    if s.calls[x].WriteSlot? { FileOthers(s, x, FreeSlot(s.slots, WRITE_SLOTS), a); }
  }

  /** The steps of a call of ll_rw_block(WRITE): it is over if the buffer is clean; otherwise it takes the lock; and
      then, with a slot that is empty, it makes the request, which clears the dirty bit, and is over. */
  lemma WriterStep(s: Cache, e: Event, a: nat, b: nat)
    requires Inv(s) && WellFormed(s) && Enabled(s, e) && (e.Run? || e.Settle? || e.File?) && e.a == a
    requires a in s.calls && (s.calls[a] == WriteLock(b) || s.calls[a] == WriteSlot(b))
    ensures b < |s.bufs| == |Apply(s, e).bufs|
    ensures var s' := Apply(s, e);
            if s.calls[a].WriteSlot? then
              && s'.calls == s.calls - {a} && !s'.bufs[b].dirt && s'.bufs[b].data == s.bufs[b].data
              && exists k :: 0 <= k < |s.slots| && s.slots[k].Empty? && s'.slots == s.slots[k := Busy(b, true)]
            else if s.bufs[b].dirt then
              s'.calls == s.calls[a := WriteSlot(b)] && s'.bufs == s.bufs[b := s.bufs[b].(lock := true)]
            else s' == s.(calls := s.calls - {a})
  {
    hide CountsRight, LocksRight, DataRight, FreeRight, Unique, RealRight, Find, Victim, OnDisk, Without,
         RunRepeat, RunHashWait, RunVictimWait, RunLockWait, RunReadWait;
    CallFits(s, a);
    var s' := Apply(s, e);
    if s.calls[a].WriteSlot? {
      var k := if e.File? then e.slot else FreeSlot(s.slots, WRITE_SLOTS);
      assert s'.slots == s.slots[k := Busy(b, true)];
    }
  }

  /** A call of ll_rw_block(WRITE) is over only if its buffer was clean, or when its request is made. */
  lemma EndsCleanOrQueued(s: Cache, e: Event, a: nat, b: nat)
    requires Inv(s) && WellFormed(s) && Enabled(s, e)
    requires a in s.calls && (s.calls[a] == WriteLock(b) || s.calls[a] == WriteSlot(b))
    requires a !in Apply(s, e).calls
    ensures b < |s.bufs|
    ensures (s.calls[a].WriteLock? && !s.bufs[b].dirt)
            || exists k :: 0 <= k < |Apply(s, e).slots| && Apply(s, e).slots[k] == Busy(b, true)
  {
    hide Inv, Apply, Enabled, WellFormed;
    if (e.Run? || e.Settle? || e.File?) && e.a == a {
      WriterStep(s, e, a, b);
      if s.calls[a].WriteSlot? {
        var k :| 0 <= k < |s.slots| && s.slots[k].Empty? && Apply(s, e).slots == s.slots[k := Busy(b, true)];
        assert Apply(s, e).slots[k] == Busy(b, true);
      }
    } else {
      OtherCalls(s, e, a);
      assert false;
    }
  }

  /** Until then it keeps what it is there for, unless someone else has the buffer written. */
  lemma StepOwes(s: Cache, e: Event, a: nat, b: nat, id: (nat, nat))
    requires Inv(s) && WellFormed(s) && Enabled(s, e) && Owes(s, a, b, id) && id.0 != 0 && !Touches(s, e, id)
    ensures Owes(Apply(s, e), a, b, id) || Clean(Apply(s, e), id)
  {
    hide Inv, Apply, Enabled, WellFormed;
    var s' := Apply(s, e);
    Goes(s, e);
    if a !in s'.calls || !(s'.calls[a] == WriteLock(b) || s'.calls[a] == WriteSlot(b)) {
      OwnStep(s, e, a, b);
    }
    DirtyId(s, e, b);
    if !(b < |s'.bufs| && s'.bufs[b].dirt) { OnlyThat(s', b, id); }
  }

  /** A dirty buffer keeps its block. */
  lemma DirtyId(s: Cache, e: Event, b: nat)
    requires Inv(s) && WellFormed(s) && Enabled(s, e) && b < |s.bufs| && s.bufs[b].dirt
    ensures |Apply(s, e).bufs| == |s.bufs| && Id(Apply(s, e).bufs[b]) == Id(s.bufs[b])
  {
    hide Inv, Apply, Enabled, WellFormed, IdentityStep;
    StepKeeps(s, e);
    StepSize(s, e);
    if Id(Apply(s, e).bufs[b]) != Id(s.bufs[b]) { VictimIsFree(s, e, b); }
  }

  lemma StepSize(s: Cache, e: Event)
    requires WellFormed(s) && Enabled(s, e) && Good(s, e, Apply(s, e))
    ensures |Apply(s, e).bufs| == |s.bufs|
  {
  }

  /** The buffer of a block is the only one. */
  lemma OnlyThat(s: Cache, b: nat, id: (nat, nat))
    requires Inv(s) && b < |s.bufs| && Id(s.bufs[b]) == id && id.0 != 0 && !s.bufs[b].dirt
    ensures Clean(s, id)
  {
  }

  /** Only its own steps change such a call; the one that ends it clears the dirty bit. */
  lemma OwnStep(s: Cache, e: Event, a: nat, b: nat)
    requires Inv(s) && WellFormed(s) && Enabled(s, e) && b < |s.bufs| && s.bufs[b].dirt
    requires a in s.calls && (s.calls[a] == WriteLock(b) || s.calls[a] == WriteSlot(b))
    requires var s' := Apply(s, e); a !in s'.calls || !(s'.calls[a] == WriteLock(b) || s'.calls[a] == WriteSlot(b))
    ensures var s' := Apply(s, e); b < |s'.bufs| && !s'.bufs[b].dirt
  {
    hide Inv, Apply, Enabled, WellFormed;
    if (e.Run? || e.Settle? || e.File?) && e.a == a {
      WriterStep(s, e, a, b);
    } else {
      OtherCalls(s, e, a);
      assert false;
    }
  }

  // ---- Runs ----

  lemma {:induction false} StayClean(s: Cache, es: seq<Event>, id: (nat, nat))
    requires Inv(s) && WellFormed(s) && Possible(s, es) && Untouched(s, es, id) && Clean(s, id)
    ensures Clean(Final(s, es), id)
    decreases |es|
  {
    hide Inv, Apply, Enabled, WellFormed, Clean, Touches;
    if es != [] {
      Goes(s, es[0]);
      StaysClean(s, es[0], id);
      StayClean(Apply(s, es[0]), es[1..], id);
    }
  }

  lemma {:induction false} RunOwes(s: Cache, es: seq<Event>, a: nat, b: nat, id: (nat, nat))
    requires Inv(s) && WellFormed(s) && Possible(s, es) && Untouched(s, es, id) && Owes(s, a, b, id) && id.0 != 0
    ensures Owes(Final(s, es), a, b, id) || Clean(Final(s, es), id)
    decreases |es|
  {
    hide Inv, Apply, Enabled, WellFormed, Clean, Touches, Owes;
    if es != [] {
      Goes(s, es[0]);
      StepOwes(s, es[0], a, b, id);
      if Clean(Apply(s, es[0]), id) {
        StayClean(Apply(s, es[0]), es[1..], id);
      } else {
        RunOwes(Apply(s, es[0]), es[1..], a, b, id);
      }
    }
  }

  lemma {:induction false} Remembers(s: Cache, es: seq<Event>, id: (nat, nat), now: Knowledge)
    requires Inv(s) && WellFormed(s) && Possible(s, es) && Untouched(s, es, id)
    ensures Latest(s, es, id, now) == now
    decreases |es|
  {
    hide Inv, Apply, WellFormed;
    if es != [] {
      Goes(s, es[0]);
      Remembers(Apply(s, es[0]), es[1..], id, now);
    }
  }

  lemma OnDiskAtLast(s: Cache, id: (nat, nat))
    requires Inv(s) && Clean(s, id) && NoRequest(s, id) && id.0 != 0
    ensures OnDisk(s.disk, id) == Store(s, id)
  {
    var b := Find(s.bufs, id.0, id.1);
    if b >= 0 { assert Id(s.bufs[b]) == id; }
  }

  /** Over every run: when a write-back of a changed buffer is over and no request for its block is left, the disk has
      what was last put into the block, provided nothing was put into it meanwhile. */
  lemma ChangesReachDisk(s: Cache, a: nat, b: nat, es: seq<Event>)
    requires Inv(s) && WellFormed(s) && Possible(s, es)
    requires a in s.calls && s.calls[a] == WriteLock(b) && b < |s.bufs| && s.bufs[b].dirt
    requires Untouched(s, es, Id(s.bufs[b]))
    requires a !in Final(s, es).calls && NoRequest(Final(s, es), Id(s.bufs[b]))
    ensures var (id, s') := (Id(s.bufs[b]), Final(s, es));
            OnDisk(s'.disk, id) == s.bufs[b].data && Store(s', id) == s.bufs[b].data
  {
    var id := Id(s.bufs[b]);
    DirtyStore(s, b);
    hide Inv, Store, Possible, Final, Untouched, Clean, NoRequest;
    RunOwes(s, es, a, b, id);
    Remembers(s, es, id, Known(Store(s, id)));
    RunIsFlatStore(s, es, id, Known(Store(s, id)));
    OnDiskAtLast(Final(s, es), id);
  }

  lemma DirtyStore(s: Cache, b: nat)
    requires Inv(s) && b < |s.bufs| && s.bufs[b].dirt
    ensures s.bufs[b].dev != 0 && Store(s, Id(s.bufs[b])) == s.bufs[b].data
  {
    FindIs(s.bufs, b);
  }
}

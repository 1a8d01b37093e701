/** What the calls of the buffer cache come to when nothing stands in their way: getblk, bread and ll_rw_block(WRITE)
    end, and do what they are for. */
module CacheProgress {
  import opened BufferCache
  import opened CacheInvariant
  import opened CacheSteps
  import opened CacheRuns
  import opened Basics

  /** getblk prefers a clean buffer to a dirty one, and of two such an unlocked one to a locked one. */
  lemma VictimOrder(bufs: seq<Buf>, free: seq<nat>, i: nat)
    requires forall j :: 0 <= j < |free| ==> free[j] < |bufs|
    requires i < |free| && bufs[free[i]].count == 0
    ensures var (v, x) := (Victim(bufs, free, 0, -1), bufs[free[i]]);
            && v >= 0 && bufs[v].count == 0 && (bufs[v].dirt ==> x.dirt)
            && (bufs[v].dirt == x.dirt && bufs[v].lock ==> x.lock)
  {
  }

  /** Of the buffers that are as good as can be, the first on the free list is taken, that is the one used least
      recently. */
  lemma {:induction false} FirstOfBest(bufs: seq<Buf>, free: seq<nat>, k: nat, best: int, i: nat)
    requires k <= i < |free| && (forall j :: 0 <= j < |free| ==> free[j] < |bufs|) && -1 <= best < |bufs|
    requires best >= 0 ==> bufs[best].count == 0 && (bufs[best].dirt || bufs[best].lock)
    requires var x := bufs[free[i]]; x.count == 0 && !x.dirt && !x.lock
    requires forall j :: k <= j < i ==> var x := bufs[free[j]]; x.count > 0 || x.dirt || x.lock
    ensures Victim(bufs, free, k, best) == free[i]
    decreases |free| - k
  {
    if k < i {
      var b := free[k];
      if bufs[b].count == 0 && (best < 0 || Badness(bufs[b]) < Badness(bufs[best])) {
        FirstOfBest(bufs, free, k + 1, b, i);
      } else {
        FirstOfBest(bufs, free, k + 1, best, i);
      }
    }
  }

  // ---- getblk ----

  /** The block is in the cache, in a buffer that is not locked: getblk counts itself in and returns the buffer; bread
      goes on to read it, if it has to. */
  lemma GetblkHits(s: Cache, a: nat, dev: nat, block: nat, read: bool, b: nat) returns (s1: Cache, s2: Cache)
    requires Inv(s) && WellFormed(s) && a in s.calls && s.calls[a] == Repeat(dev, block, read)
    requires b < |s.bufs| && Id(s.bufs[b]) == (dev, block) && !s.bufs[b].lock
    ensures Enabled(s, Run(a)) && s1 == Apply(s, Run(a)) && Inv(s1) && WellFormed(s1)
    ensures Enabled(s1, Run(a)) && s2 == Apply(s1, Run(a))
    ensures s2.bufs == s.bufs[b := s.bufs[b].(count := s.bufs[b].count + 1)] && s2.free == s.free && s2.disk == s.disk
    ensures if read && !s.bufs[b].uptodate then s2.calls == s.calls[a := LockWait(dev, block, b)] && s2.users == s.users
            else s2.calls == s.calls - {a} && s2.users == s.users + multiset{b}
  {
    hide Inv, WellFormed, Enabled, Apply, Find;
    FindsBlock(s, a, b);
    RepeatFinds(s, a, dev, block, read, b);
    s1 := Apply(s, Run(a));
    Goes(s, Run(a));
    HashWaitEnds(s1, a, dev, block, read, b);
    s2 := Apply(s1, Run(a));
    assert s.calls[a := HashWait(dev, block, read, b)] - {a} == s.calls - {a};
    assert s.calls[a := HashWait(dev, block, read, b)][a := LockWait(dev, block, b)] ==
           s.calls[a := LockWait(dev, block, b)];
  }

  lemma FindsBlock(s: Cache, a: nat, b: nat)
    requires Inv(s) && WellFormed(s) && a in s.calls && s.calls[a].Repeat?
    requires b < |s.bufs| && Id(s.bufs[b]) == (s.calls[a].dev, s.calls[a].block)
    ensures Find(s.bufs, s.calls[a].dev, s.calls[a].block) == b
  {
    CallFits(s, a);
    FindIs(s.bufs, b);
  }

  lemma RepeatFinds(s: Cache, a: nat, dev: nat, block: nat, read: bool, b: nat)
    requires WellFormed(s) && a in s.calls && s.calls[a] == Repeat(dev, block, read)
    requires b < |s.bufs| && Find(s.bufs, dev, block) == b
    ensures Enabled(s, Run(a))
    ensures Apply(s, Run(a)) == s.(bufs := s.bufs[b := s.bufs[b].(count := s.bufs[b].count + 1)],
                                   calls := s.calls[a := HashWait(dev, block, read, b)])
  {
  }

  lemma HashWaitEnds(s: Cache, a: nat, dev: nat, block: nat, read: bool, b: nat)
    requires WellFormed(s) && a in s.calls && s.calls[a] == HashWait(dev, block, read, b)
    requires b < |s.bufs| && Id(s.bufs[b]) == (dev, block) && !s.bufs[b].lock
    ensures Enabled(s, Run(a)) && Apply(s, Run(a)) == Got(s, a, dev, block, read, b)
  {
  }

  /** It is not, and there is an unused buffer that is clean and not locked: getblk returns that buffer, for the block
      asked for, and it is now the last to be taken again. */
  lemma GetblkMisses(s: Cache, a: nat, dev: nat, block: nat, read: bool) returns (v: nat, s1: Cache, s2: Cache)
    requires Inv(s) && WellFormed(s) && a in s.calls && s.calls[a] == Repeat(dev, block, read)
    requires forall b :: 0 <= b < |s.bufs| ==> Id(s.bufs[b]) != (dev, block)
    requires exists b :: 0 <= b < |s.bufs| && s.bufs[b].count == 0 && !s.bufs[b].dirt && !s.bufs[b].lock
    ensures Enabled(s, Run(a)) && s1 == Apply(s, Run(a)) && Inv(s1) && WellFormed(s1)
    ensures Enabled(s1, Run(a)) && s2 == Apply(s1, Run(a))
    ensures v < |s.bufs| && s.bufs[v].count == 0 && !s.bufs[v].dirt && !s.bufs[v].lock
    ensures s2.bufs == s.bufs[v := Buf(dev, block, false, false, 1, false, s.bufs[v].data)] && s2.disk == s.disk
    ensures s2.free != [] && s2.free[|s2.free| - 1] == v && forall b :: b in s2.free <==> b in s.free
    ensures if read then s2.calls == s.calls[a := LockWait(dev, block, v)] && s2.users == s.users
            else s2.calls == s.calls - {a} && s2.users == s.users + multiset{v}
  {
    hide Inv, WellFormed, Enabled, Apply, Find, Victim, Without, Claim;
    v := UnusedVictim(s);
    NotFound(s, dev, block);
    RepeatMisses(s, a, dev, block, read, v);
    s1 := Apply(s, Run(a));
    Goes(s, Run(a));
    VictimWaitEnds(s1, a, dev, block, read, v);
    s2 := Apply(s1, Run(a));
    FreeHas(s, v);
    Claimed(s1, v, dev, block);
    assert s.calls[a := VictimWait(dev, block, read, v)] - {a} == s.calls - {a};
    assert s.calls[a := VictimWait(dev, block, read, v)][a := LockWait(dev, block, v)] ==
           s.calls[a := LockWait(dev, block, v)];
  }

  lemma RepeatMisses(s: Cache, a: nat, dev: nat, block: nat, read: bool, v: nat)
    requires WellFormed(s) && a in s.calls && s.calls[a] == Repeat(dev, block, read)
    requires v < |s.bufs| && Find(s.bufs, dev, block) == -1 && Victim(s.bufs, s.free, 0, -1) == v
    ensures Enabled(s, Run(a)) && Apply(s, Run(a)) == s.(calls := s.calls[a := VictimWait(dev, block, read, v)])
  {
  }

  lemma VictimWaitEnds(s: Cache, a: nat, dev: nat, block: nat, read: bool, v: nat)
    requires WellFormed(s) && a in s.calls && s.calls[a] == VictimWait(dev, block, read, v)
    requires v < |s.bufs| && s.bufs[v].count == 0 && !s.bufs[v].dirt && !s.bufs[v].lock
    requires Find(s.bufs, dev, block) == -1
    ensures Enabled(s, Run(a)) && Apply(s, Run(a)) == Got(Claim(s, v, dev, block), a, dev, block, read, v)
  {
  }

  lemma Claimed(s: Cache, v: nat, dev: nat, block: nat)
    requires v < |s.bufs| && !s.bufs[v].lock && v in s.free
    requires forall i, j :: 0 <= i < j < |s.free| ==> s.free[i] != s.free[j]
    ensures var t := Claim(s, v, dev, block);
            && t == s.(bufs := s.bufs[v := Buf(dev, block, false, false, 1, false, s.bufs[v].data)], free := t.free)
            && t.free != [] && t.free[|t.free| - 1] == v
            && forall b :: b in t.free <==> b in s.free
  {
    hide Without;
    var i := WithoutIs(s.free, v);
    assert s.free == s.free[..i] + [v] + s.free[i + 1..];
  }

  lemma FreeHas(s: Cache, v: nat)
    requires Inv(s) && v < |s.bufs|
    ensures v in s.free && forall i, j :: 0 <= i < j < |s.free| ==> s.free[i] != s.free[j]
  {
  }

  lemma NotFound(s: Cache, dev: nat, block: nat)
    requires forall b :: 0 <= b < |s.bufs| ==> Id(s.bufs[b]) != (dev, block)
    ensures Find(s.bufs, dev, block) == -1
  {
    var r := Find(s.bufs, dev, block);
    if r >= 0 { assert false; }
  }

  lemma UnusedVictim(s: Cache) returns (v: nat)
    requires Inv(s)
    requires exists b :: 0 <= b < |s.bufs| && s.bufs[b].count == 0 && !s.bufs[b].dirt && !s.bufs[b].lock
    ensures v < |s.bufs| && Victim(s.bufs, s.free, 0, -1) == v
    ensures s.bufs[v].count == 0 && !s.bufs[v].dirt && !s.bufs[v].lock
  {
    var b: nat :| b < |s.bufs| && s.bufs[b].count == 0 && !s.bufs[b].dirt && !s.bufs[b].lock;
    FreeHas(s, b);
    var i: nat :| i < |s.free| && s.free[i] == b;
    VictimOrder(s.bufs, s.free, i);
    v := Victim(s.bufs, s.free, 0, -1);
  }

  /** The buffer getblk waited for has been taken, or the block has come into the cache: it starts over. */
  lemma GetblkStartsOver(s: Cache, a: nat)
    requires Inv(s) && WellFormed(s) && a in s.calls && s.calls[a].VictimWait?
    requires s.calls[a].buf < |s.bufs| && !s.bufs[s.calls[a].buf].lock
    requires var (c, b) := (s.calls[a], s.bufs[s.calls[a].buf]);
             b.count > 0 || (!b.dirt && exists i :: 0 <= i < |s.bufs| && Id(s.bufs[i]) == (c.dev, c.block))
    ensures Enabled(s, Run(a))
    ensures var c := s.calls[a]; Apply(s, Run(a)) == s.(calls := s.calls[a := Repeat(c.dev, c.block, c.read)])
  {
    hide Inv;
    var c := s.calls[a];
    if s.bufs[c.buf].count == 0 {
      var i :| 0 <= i < |s.bufs| && Id(s.bufs[i]) == (c.dev, c.block);
    }
  }

  // ---- bread ----

  /** A block that has to be read, with an empty slot: lock, request, completion, and bread returns the buffer with what
      the disk holds. */
  lemma BreadReads(s: Cache, a: nat, dev: nat, block: nat, b: nat, torn: Data)
      returns (k: nat, s1: Cache, s2: Cache, s3: Cache, s4: Cache)
    requires Inv(s) && WellFormed(s) && a in s.calls && s.calls[a] == LockWait(dev, block, b) && b < |s.bufs|
    requires !s.bufs[b].lock && !s.bufs[b].uptodate && exists k :: 0 <= k < NR_REQUEST && s.slots[k].Empty?
    ensures Enabled(s, Run(a)) && s1 == Apply(s, Run(a)) && WellFormed(s1) && Enabled(s1, Run(a))
    ensures s2 == Apply(s1, Run(a)) && WellFormed(s2) && k < NR_REQUEST && s2.slots == s.slots[k := Busy(b, false)]
    ensures Enabled(s2, Complete(k, torn)) && s3 == Apply(s2, Complete(k, torn)) && WellFormed(s3)
    ensures Enabled(s3, Run(a)) && s4 == Apply(s3, Run(a))
    ensures s4.calls == s.calls - {a} && s4.users == s.users + multiset{b} && s4.slots == s.slots && s4.disk == s.disk
    ensures s4.bufs == s.bufs[b := s.bufs[b].(dirt := false, uptodate := true, data := OnDisk(s.disk, Id(s.bufs[b])))]
  {
    hide Inv, OnDisk, Id;
    k := FreeSlot(s.slots, NR_REQUEST);
    s1 := Apply(s, Run(a));
    Goes(s, Run(a));
    s2 := Apply(s1, Run(a));
    Goes(s1, Run(a));
    s3 := Apply(s2, Complete(k, torn));
    SameName(s.bufs[b], s2.bufs[b]);
    Goes(s2, Complete(k, torn));
    s4 := Apply(s3, Run(a));
    assert s.slots[k := Busy(b, false)][k := Empty] == s.slots;
    assert s3.calls == s.calls[a := ReadWait(dev, block, b)];
    assert s.calls[a := ReadWait(dev, block, b)] - {a} == s.calls - {a};
  }

  /** A block that has been read while bread waited for the lock: it returns the buffer. */
  lemma BreadFinds(s: Cache, a: nat, dev: nat, block: nat, b: nat) returns (s1: Cache)
    requires Inv(s) && WellFormed(s) && a in s.calls && s.calls[a] == LockWait(dev, block, b) && b < |s.bufs|
    requires !s.bufs[b].lock && s.bufs[b].uptodate
    ensures Enabled(s, Run(a)) && s1 == Apply(s, Run(a)) && WellFormed(s1) && Enabled(s1, Run(a))
    ensures Apply(s1, Run(a)) == s.(calls := s.calls - {a}, users := s.users + multiset{b})
  {
    hide Inv;
    s1 := Apply(s, Run(a));
    Goes(s, Run(a));
    assert s.calls[a := ReadWait(dev, block, b)] - {a} == s.calls - {a};
  }

  lemma SameName(x: Buf, y: Buf)
    requires x.dev == y.dev && x.block == y.block
    ensures Id(x) == Id(y)
  {
  }

  // ---- ll_rw_block(WRITE) ----

  /** A changed buffer, with an empty slot that writes may use: lock, request, completion, and the disk has it. */
  lemma BufferWritten(s: Cache, a: nat, b: nat, torn: Data) returns (k: nat, s1: Cache, s2: Cache, s3: Cache)
    requires Inv(s) && WellFormed(s) && a in s.calls && s.calls[a] == WriteLock(b) && b < |s.bufs|
    requires !s.bufs[b].lock && s.bufs[b].dirt && exists k :: 0 <= k < WRITE_SLOTS && s.slots[k].Empty?
    ensures Enabled(s, Run(a)) && s1 == Apply(s, Run(a)) && WellFormed(s1) && Enabled(s1, Run(a))
    ensures s2 == Apply(s1, Run(a)) && WellFormed(s2) && k < WRITE_SLOTS && s2.slots == s.slots[k := Busy(b, true)]
    ensures Enabled(s2, Complete(k, torn)) && s3 == Apply(s2, Complete(k, torn))
    ensures s3.calls == s.calls - {a} && s3.slots == s.slots && s3.users == s.users
    ensures s3.bufs == s.bufs[b := s.bufs[b].(dirt := false, uptodate := true)]
    ensures s3.disk == s.disk[Id(s.bufs[b]) := s.bufs[b].data]
  {
    hide Inv, OnDisk, Id;
    k := FreeSlot(s.slots, WRITE_SLOTS);
    s1 := Apply(s, Run(a));
    Goes(s, Run(a));
    s2 := Apply(s1, Run(a));
    Goes(s1, Run(a));
    s3 := Apply(s2, Complete(k, torn));
    SameName(s.bufs[b], s2.bufs[b]);
    assert s.slots[k := Busy(b, true)][k := Empty] == s.slots;
    assert s.calls[a := WriteSlot(b)] - {a} == s.calls - {a};
  }

  /** A buffer that is changed while it is written: there is no telling what the disk has then, and the buffer is still
      to be written. */
  lemma RacedWrite(s: Cache, k: nat, torn: Data)
    requires WellFormed(s) && k < NR_REQUEST && s.slots[k].Busy? && s.slots[k].write && s.bufs[s.slots[k].buf].dirt
    ensures var b := s.slots[k].buf;
            && Enabled(s, Complete(k, torn))
            && var s1 := Apply(s, Complete(k, torn));
               && s1.disk == s.disk[Id(s.bufs[b]) := torn] && s1.slots == s.slots[k := Empty]
               && s1.bufs == s.bufs[b := s.bufs[b].(uptodate := true, lock := false)]
  {
  }

  // ---- Users ----

  /** A reference given back is one less, and that is all. */
  lemma BrelseIs(s: Cache, b: nat)
    requires Inv(s) && WellFormed(s) && b in s.users && b < |s.bufs| && !s.bufs[b].lock
    ensures Enabled(s, Release(b)) && s.bufs[b].count > 0
    ensures Apply(s, Release(b)) == s.(bufs := s.bufs[b := s.bufs[b].(count := s.bufs[b].count - 1)],
                                       users := s.users - multiset{b})
  {
    InUse(s, b);
  }

  /** A call begins at its first step, and nothing else happens. */
  lemma CallsBegin(s: Cache, a: nat, dev: nat, block: nat, read: bool, b: nat)
    requires WellFormed(s) && a !in s.calls && dev != 0
    ensures Enabled(s, Begin(a, dev, block, read))
    ensures Apply(s, Begin(a, dev, block, read)) == s.(calls := s.calls[a := Repeat(dev, block, read)])
    ensures b < |s.bufs| && s.bufs[b].dev != 0 ==>
              Enabled(s, BeginWrite(a, b)) && Apply(s, BeginWrite(a, b)) == s.(calls := s.calls[a := WriteLock(b)])
  {
  }

  /** Who has a reference may change the data of a block that is up to date; who has the only one may clear the block,
      or drop what it holds. */
  lemma UsersChange(s: Cache, b: nat, data: Data)
    requires WellFormed(s) && b in s.users && b < |s.bufs|
    ensures var x := s.bufs[b];
            && (x.uptodate ==> Enabled(s, Modify(b, data))
                               && Apply(s, Modify(b, data)) == SetBuf(s, b, x.(data := data, dirt := true)))
            && (x.count == 1 && !x.lock ==>
                  && Enabled(s, Zero(b, data)) && Enabled(s, Discard(b))
                  && Apply(s, Zero(b, data)) == SetBuf(s, b, x.(data := data, uptodate := true, dirt := true))
                  && Apply(s, Discard(b)) == SetBuf(s, b, x.(uptodate := false, dirt := false)))
  {
  }

  /** A scan that is interrupted may settle for any unused buffer, or for any slot that is empty and that the call may
      have: writes leave the last third of the slots to reads. */
  lemma ScansSettle(s: Cache, a: nat, i: nat)
    requires WellFormed(s) && a in s.calls
    ensures var c := s.calls[a];
            && (c.Repeat? && i < |s.bufs| && s.bufs[i].count == 0
                && (forall j :: 0 <= j < |s.bufs| ==> Id(s.bufs[j]) != (c.dev, c.block))
                ==> Enabled(s, Settle(a, i)) && Apply(s, Settle(a, i)) ==
                                                  s.(calls := s.calls[a := VictimWait(c.dev, c.block, c.read, i)]))
            && (c.SlotWait? && i < NR_REQUEST && s.slots[i].Empty? ==> Enabled(s, File(a, i)))
            && (c.WriteSlot? && i < NR_REQUEST && s.slots[i].Empty? ==>
                  (Enabled(s, File(a, i)) <==> i < 2 * NR_REQUEST / 3))
  {
  }
}

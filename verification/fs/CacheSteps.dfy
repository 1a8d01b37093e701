/** Every step of the buffer cache keeps the invariant and is a step of the flat block store. */
module CacheSteps {
  import opened BufferCache
  import opened Basics
  import opened CacheInvariant

  ghost predicate Good(s: Cache, e: Event, s': Cache) {
    Inv(s') && IdentityStep(s, s') && StoreStep(s, e, s')
  }

  /** The store looks at identity, b_uptodate, data and the disk only. */
  lemma SameStore(s: Cache, s': Cache, id: (nat, nat))
    requires Unique(s.bufs) && Unique(s'.bufs) && |s'.bufs| == |s.bufs| && id.0 != 0
    requires forall b :: 0 <= b < |s.bufs| && (Id(s.bufs[b]) == id || Id(s'.bufs[b]) == id) ==>
               Id(s'.bufs[b]) == Id(s.bufs[b]) && s'.bufs[b].uptodate == s.bufs[b].uptodate &&
                   (s.bufs[b].uptodate ==> s'.bufs[b].data == s.bufs[b].data)
    requires OnDisk(s'.disk, id) == OnDisk(s.disk, id)
    ensures Store(s', id) == Store(s, id)
  {
    var b := Find(s.bufs, id.0, id.1);
    if b >= 0 { FindIs(s'.bufs, b); }
  }

  /** Events that leave the store alone. */
  ghost predicate Silent(s: Cache, s': Cache) {
    Inv(s') && IdentityStep(s, s') && forall id: (nat, nat) :: id.0 != 0 ==> Store(s', id) == Store(s, id)
  }

  ghost predicate IsLocker(c: Call) { c.SlotWait? || c.WriteSlot? }

  // ---- References ----

  /** References move between calls and users; nothing else changes. */
  ghost predicate OnlyReferences(s: Cache, s': Cache) {
    && |s'.bufs| == |s.bufs| && s'.free == s.free && s'.slots == s.slots && s'.disk == s.disk
    && (forall b :: 0 <= b < |s.bufs| ==> s'.bufs[b] == s.bufs[b].(count := s'.bufs[b].count))
    && (forall a :: a in s'.calls ==>
          (a in s.calls && s'.calls[a] == s.calls[a]) || (!IsLocker(s'.calls[a]) && CallRight(s', s'.calls[a])))
    && (forall a :: a in s.calls && IsLocker(s.calls[a]) ==> a in s'.calls && s'.calls[a] == s.calls[a])
  }

  lemma ReferencesKeep(s: Cache, s': Cache)
    requires Inv(s) && OnlyReferences(s, s') && CountsRight(s') && RealRight(s')
    ensures Silent(s, s')
  {
    ReferencesIds(s, s');
    hide RealRight, CountsRight, LocksRight, DataRight, CallsRight, Unique, FreeRight, Store, IdentityStep, SlotsRight;
    ReferencesLocks(s, s');
    ReferencesCalls(s, s');
    Assemble(s, s');
  }

  lemma ReferencesLocks(s: Cache, s': Cache)
    requires LocksRight(s) && DataRight(s) && OnlyReferences(s, s')
    ensures LocksRight(s') && DataRight(s')
  {
    forall x, b: nat ensures Holds(s', x, b) == Holds(s, x, b) && Reads(s', x, b) == Reads(s, x, b) {}
    forall b: nat | b < |s.bufs| && s'.bufs[b].lock ensures exists x :: Holds(s', x, b) {
      var x :| Holds(s, x, b);
      assert Holds(s', x, b);
    }
    forall b ensures WritePending(s', b) == WritePending(s, b) {}
  }

  lemma ReferencesCalls(s: Cache, s': Cache)
    requires CallsRight(s) && OnlyReferences(s, s')
    ensures CallsRight(s')
  {
    forall a | a in s'.calls ensures CallRight(s', s'.calls[a]) { if a in s.calls { assert CallRight(s, s.calls[a]); } }
  }

  lemma ReferencesIds(s: Cache, s': Cache)
    requires Unique(s.bufs) && FreeRight(s) && SlotsRight(s) && OnlyReferences(s, s')
    ensures Unique(s'.bufs) && FreeRight(s') && SlotsRight(s') && IdentityStep(s, s')
    ensures forall id: (nat, nat) :: id.0 != 0 ==> Store(s', id) == Store(s, id)
  {
    assert Unique(s'.bufs);
    hide FreeRight, SlotsRight, IdentityStep, Store;
    forall id: (nat, nat) | id.0 != 0 ensures Store(s', id) == Store(s, id) { SameStore(s, s', id); }
  }

  /** Call a changes from one state to another, taking a reference to `get` and dropping one to `put` (-1: none). */
  lemma CallMoves(s: Cache, s': Cache, a: nat, c: Call)
    requires CountsRight(s) && s'.users == s.users && s'.calls == s.calls[a := c] && |s'.bufs| == |s.bufs|
    requires forall b :: 0 <= b < |s.bufs| ==>
               s'.bufs[b].count ==
               s.bufs[b].count + (if Token(c) == b then 1 else 0)
               - (if a in s.calls && Token(s.calls[a]) == b then 1 else 0)
    ensures CountsRight(s')
  {
    forall b | 0 <= b < |s.bufs| ensures s'.bufs[b].count == s'.users[b] + |Waiters(s'.calls, b)| {
      PutCall(s.calls, a, c, b);
    }
  }

  /** Call a returns, handing its reference to the caller, or giving it up. */
  lemma CallReturns(s: Cache, s': Cache, a: nat, keep: bool)
    requires CountsRight(s) && a in s.calls && s'.calls == s.calls - {a} && |s'.bufs| == |s.bufs|
    requires keep ==> 0 <= Token(s.calls[a]) < |s.bufs| && s'.users == s.users + multiset{Token(s.calls[a]) as nat}
    requires keep ==> forall b :: 0 <= b < |s.bufs| ==> s'.bufs[b].count == s.bufs[b].count
    requires !keep ==> s'.users == s.users && forall b :: 0 <= b < |s.bufs| ==>
               s'.bufs[b].count == s.bufs[b].count - (if Token(s.calls[a]) == b then 1 else 0)
    ensures CountsRight(s')
  {
    forall b | 0 <= b < |s.bufs| ensures s'.bufs[b].count == s'.users[b] + |Waiters(s'.calls, b)| {
      DropCall(s.calls, a, b);
    }
  }

  lemma BeginKeeps(s: Cache, a: nat, c: Call)
    requires Inv(s) && a !in s.calls && CallRight(s, c) && (c.Repeat? || c.WriteLock?)
    ensures Silent(s, s.(calls := s.calls[a := c]))
  {
    hide Unique, LocksRight, DataRight, FreeRight, SlotsRight;
    var s' := s.(calls := s.calls[a := c]);
    CallMoves(s, s', a, c);
    ReferencesKeep(s, s');
  }

  lemma ReleaseKeeps(s: Cache, b: nat)
    requires Inv(s) && b in s.users
    ensures b < |s.bufs| && s.bufs[b].count > 0
    ensures Silent(s, SetBuf(s, b, s.bufs[b].(count := s.bufs[b].count - 1)).(users := s.users - multiset{b}))
  {
    hide Unique, LocksRight, DataRight, CallsRight, FreeRight, SlotsRight, Silent;
    InUse(s, b);
    var s' := SetBuf(s, b, s.bufs[b].(count := s.bufs[b].count - 1)).(users := s.users - multiset{b});
    assert CountsRight(s');
    ReferencesKeep(s, s');
  }

  // ---- getblk and bread: the parts that only move references ----

  lemma CallFits(s: Cache, a: nat)
    requires Inv(s) && a in s.calls
    ensures CallRight(s, s.calls[a])
  {
  }

  lemma RepeatKeeps(s: Cache, a: nat, dev: nat, block: nat, read: bool)
    requires Inv(s) && WellFormed(s) && a in s.calls && s.calls[a] == Repeat(dev, block, read)
    ensures Silent(s, RunRepeat(s, a, dev, block, read))
  {
    hide RealRight, CountsRight, LocksRight, DataRight, CallsRight, Unique, FreeRight, Store, IdentityStep,
         SlotsRight, Silent, Find, Victim, Inv;
    CallFits(s, a);
    var b := Find(s.bufs, dev, block);
    if b >= 0 {
      TakeKeeps(s, a, dev, block, read, b);
    } else {
      WaitKeeps(s, a, dev, block, read, Victim(s.bufs, s.free, 0, -1));
    }
  }

  /** getblk settles for a buffer and waits for it, or sleeps because there is none. */
  lemma WaitKeeps(s: Cache, a: nat, dev: nat, block: nat, read: bool, v: int)
    requires Inv(s) && a in s.calls && s.calls[a] == Repeat(dev, block, read) && -1 <= v < |s.bufs|
    ensures Silent(s, if v < 0 then s else s.(calls := s.calls[a := VictimWait(dev, block, read, v)]))
  {
    assert CallRight(s, s.calls[a]);
    hide RealRight, CountsRight, LocksRight, DataRight, CallsRight, Unique, FreeRight, Store, IdentityStep,
         SlotsRight, Silent, Inv;
    if v < 0 { SilentStay(s); } else { RestartKeeps(s, a, VictimWait(dev, block, read, v)); }
  }

  ghost function Taken(s: Cache, a: nat, dev: nat, block: nat, read: bool, b: nat): Cache
    requires b < |s.bufs|
  {
    SetBuf(s, b, s.bufs[b].(count := s.bufs[b].count + 1)).(calls := s.calls[a := HashWait(dev, block, read, b)])
  }

  /** get_hash_table found the buffer and counts itself in. */
  lemma TakeKeeps(s: Cache, a: nat, dev: nat, block: nat, read: bool, b: nat)
    requires Inv(s) && a in s.calls && s.calls[a] == Repeat(dev, block, read) && dev != 0 && b < |s.bufs|
    requires Id(s.bufs[b]) == (dev, block)
    ensures Silent(s, Taken(s, a, dev, block, read, b))
  {
    var s' := Taken(s, a, dev, block, read, b);
    TakeReferences(s, a, dev, block, read, b);
    hide RealRight, Unique, CountsRight, LocksRight, DataRight, CallsRight, FreeRight, SlotsRight, Silent,
         OnlyReferences, Taken;
    ReferencesKeep(s, s');
  }

  lemma TakeReferences(s: Cache, a: nat, dev: nat, block: nat, read: bool, b: nat)
    requires CountsRight(s) && RealRight(s) && a in s.calls && s.calls[a] == Repeat(dev, block, read) && dev != 0
    requires b < |s.bufs| && Id(s.bufs[b]) == (dev, block)
    ensures OnlyReferences(s, Taken(s, a, dev, block, read, b))
    ensures CountsRight(Taken(s, a, dev, block, read, b)) && RealRight(Taken(s, a, dev, block, read, b))
  {
    CallMoves(s, Taken(s, a, dev, block, read, b), a, HashWait(dev, block, read, b));
  }

  /** get_hash_table: the buffer waited for is always still the right one. */
  lemma HashWaitKeeps(s: Cache, a: nat, c: Call)
    requires Inv(s) && WellFormed(s) && a in s.calls && s.calls[a] == c && c.HashWait? && !s.bufs[c.buf].lock
    ensures Id(s.bufs[c.buf]) == (c.dev, c.block)
    ensures Silent(s, RunHashWait(s, a, c.dev, c.block, c.read, c.buf))
  {
    assert CallRight(s, c);
    hide RealRight, Unique, CountsRight, LocksRight, DataRight, CallsRight, FreeRight, SlotsRight, Silent;
    if c.read && !s.bufs[c.buf].uptodate {
      RestartKeeps(s, a, LockWait(c.dev, c.block, c.buf));
    } else {
      ReturnKeeps(s, a);
    }
  }

  /** A call returns its buffer to the caller. */
  lemma ReturnKeeps(s: Cache, a: nat)
    requires Inv(s) && a in s.calls && 0 <= Token(s.calls[a]) < |s.bufs| && !IsLocker(s.calls[a])
    ensures Silent(s, s.(calls := s.calls - {a}, users := s.users + multiset{Token(s.calls[a]) as nat}))
  {
    var s' := s.(calls := s.calls - {a}, users := s.users + multiset{Token(s.calls[a]) as nat});
    assert RealRight(s') && OnlyReferences(s, s');
    hide RealRight, Unique, CountsRight, LocksRight, DataRight, CallsRight, FreeRight, SlotsRight, Silent;
    CallReturns(s, s', a, true);
    ReferencesKeep(s, s');
  }

  /** A call starts over, or goes on to wait. */
  lemma RestartKeeps(s: Cache, a: nat, c: Call)
    requires Inv(s) && a in s.calls && !IsLocker(s.calls[a]) && !IsLocker(c) && Token(c) == Token(s.calls[a])
    requires CallRight(s, c)
    ensures Silent(s, s.(calls := s.calls[a := c]))
  {
    hide Unique, LocksRight, DataRight, FreeRight, SlotsRight;
    var s' := s.(calls := s.calls[a := c]);
    CallMoves(s, s', a, c);
    assert CallRight(s', c);
    ReferencesKeep(s, s');
  }

  /** bread finds its buffer up to date. */
  lemma ReadWaitKeeps(s: Cache, a: nat, b: nat)
    requires Inv(s) && WellFormed(s) && a in s.calls && s.calls[a].ReadWait? && s.calls[a].buf == b && !s.bufs[b].lock
    ensures s.bufs[b].uptodate && Silent(s, RunReadWait(s, a, b))
  {
    assert CallRight(s, s.calls[a]);
    hide RealRight, Unique, CountsRight, LocksRight, DataRight, CallsRight, FreeRight, SlotsRight, Silent;
    ReturnKeeps(s, a);
  }

  lemma CleanWriteKeeps(s: Cache, a: nat)
    requires Inv(s) && a in s.calls && s.calls[a].WriteLock?
    ensures Silent(s, s.(calls := s.calls - {a}))
  {
    var s' := s.(calls := s.calls - {a});
    CallReturns(s, s', a, false);
    ReferencesKeep(s, s');
  }

  // ---- Locks and requests ----

  /** The pieces put together. */
  lemma Assemble(s: Cache, s': Cache)
    requires CountsRight(s') && LocksRight(s') && DataRight(s') && CallsRight(s') && RealRight(s') && SlotsRight(s')
    requires Unique(s'.bufs) && FreeRight(s') && IdentityStep(s, s')
    requires forall id: (nat, nat) :: id.0 != 0 ==> Store(s', id) == Store(s, id)
    ensures Silent(s, s')
  {
  }

  ghost function Locked(s: Cache, a: nat, c: Call, v: nat): Cache
    requires v < |s.bufs|
  {
    SetBuf(s, v, s.bufs[v].(lock := true)).(calls := s.calls[a := c])
  }

  /** lock_buffer succeeds. */
  lemma LockKeeps(s: Cache, a: nat, c: Call, v: nat)
    requires Inv(s) && WellFormed(s) && a in s.calls && !IsLocker(s.calls[a]) && v < |s.bufs| && !s.bufs[v].lock
    requires s.bufs[v].dev != 0
    requires IsLocker(c) && c.buf == v && Token(c) == Token(s.calls[a]) && CallRight(s, c)
    requires s.bufs[v].uptodate == c.WriteSlot?
    ensures Silent(s, Locked(s, a, c, v))
  {
    hide CountsRight, LocksRight, DataRight, Unique, FreeRight, Store, CallRight, IdentityStep;
    var s' := Locked(s, a, c, v);
    CallMoves(s, s', a, c);
    assert SlotsRight(s') && RealRight(s');
    hide RealRight, SlotsRight;
    LockHolds(s, a, c, v);
    LockLocks(s, s', a, v);
    LockData(s, a, c, v);
    OthersKeep(s, s', v);
    forall a' | a' in s'.calls ensures CallRight(s', s'.calls[a']) { assert a' != a ==> CallRight(s, s.calls[a']); }
    Assemble(s, s');
  }

  lemma LockHolds(s: Cache, a: nat, c: Call, v: nat)
    requires a in s.calls && !IsLocker(s.calls[a]) && v < |s.bufs| && IsLocker(c) && c.buf == v
    ensures forall x, b: nat :: Holds(Locked(s, a, c, v), x, b) == (Holds(s, x, b) || (x == Caller(a) && b == v))
    ensures forall x, b: nat ::
              Reads(Locked(s, a, c, v), x, b) == (Reads(s, x, b) || (x == Caller(a) && b == v && c.SlotWait?))
    ensures forall b: nat :: !Holds(s, Caller(a), b)
  {
  }

  lemma LockData(s: Cache, a: nat, c: Call, v: nat)
    requires LocksRight(s) && DataRight(s) && a in s.calls && !IsLocker(s.calls[a]) && v < |s.bufs| && !s.bufs[v].lock
    requires IsLocker(c) && c.buf == v && s.bufs[v].uptodate == c.WriteSlot?
    ensures DataRight(Locked(s, a, c, v))
  {
    var s' := Locked(s, a, c, v);
    LockHolds(s, a, c, v);
    forall b: nat | b < |s.bufs| ensures WritePending(s', b) == WritePending(s, b) {}
    forall x, b: nat | Holds(s', x, b) && b < |s.bufs| ensures s'.bufs[b].uptodate == !Reads(s', x, b) {
      if b != v { assert Holds(s, x, b); } else { assert !Holds(s, x, b); }
    }
  }

  lemma LockLocks(s: Cache, s': Cache, a: nat, v: nat)
    requires LocksRight(s) && v < |s.bufs| && !s.bufs[v].lock && s.bufs[v].dev != 0
    requires s'.bufs == s.bufs[v := s.bufs[v].(lock := true)]
    requires forall x, b: nat :: Holds(s', x, b) == (Holds(s, x, b) || (x == Caller(a) && b == v))
    requires forall b: nat :: !Holds(s, Caller(a), b)
    ensures LocksRight(s')
  {
    forall b: nat | b < |s.bufs| && s'.bufs[b].lock ensures exists x :: Holds(s', x, b) {
      if b == v { assert Holds(s', Caller(a), b); } else { var x :| Holds(s, x, b); assert Holds(s', x, b); }
    }
  }

  lemma SameCalls(s: Cache, s': Cache)
    requires |s'.bufs| == |s.bufs|
    requires forall b :: 0 <= b < |s.bufs| ==>
               && Id(s'.bufs[b]) == Id(s.bufs[b])
               && s'.bufs[b].uptodate == s.bufs[b].uptodate && (s.bufs[b].lock ==> s'.bufs[b].lock)
    ensures forall c :: CallRight(s, c) ==> CallRight(s', c)
  {
  }

  /** The parts that do not care about locks and dirty bits. */
  lemma OthersKeep(s: Cache, s': Cache, v: nat)
    requires Inv(s) && v < |s.bufs| && s'.free == s.free && s'.disk == s.disk
    requires |s'.bufs| == |s.bufs| && s'.bufs == s.bufs[v := s'.bufs[v]]
    requires s'.bufs[v] == s.bufs[v].(lock := s'.bufs[v].lock, dirt := s'.bufs[v].dirt)
    requires (s.bufs[v].lock ==> s'.bufs[v].lock)
    ensures Unique(s'.bufs) && FreeRight(s') && IdentityStep(s, s')
    ensures forall id: (nat, nat) :: id.0 != 0 ==> Store(s', id) == Store(s, id)
    ensures forall c :: CallRight(s, c) ==> CallRight(s', c)
  {
    SameCalls(s, s');
    assert Unique(s'.bufs);
    hide RealRight, CountsRight, LocksRight, DataRight, CallsRight, SlotsRight, Store, CallRight;
    forall id: (nat, nat) | id.0 != 0 ensures Store(s', id) == Store(s, id) { SameStore(s, s', id); }
  }

  /** add_request. */
  lemma RequestKeeps(s: Cache, a: nat, v: nat, k: nat, write: bool, calls: map<nat, Call>)
    requires Inv(s) && WellFormed(s) && a in s.calls && IsLocker(s.calls[a]) && s.calls[a].buf == v
    requires s.calls[a].WriteSlot? == write
    requires k < |s.slots| && s.slots[k].Empty? && (write ==> k < WRITE_SLOTS) && v < |s.bufs|
    requires if write then calls == s.calls - {a}
               else calls == s.calls[a := ReadWait(s.calls[a].dev, s.calls[a].block, v)]
    ensures Silent(s, AddRequest(s, v, k, write, calls))
  {
    var s' := AddRequest(s, v, k, write, calls);
    assert CallRight(s, s.calls[a]);
    assert SlotsRight(s') && RealRight(s');
    RequestCalls(s, a, v, k, write, calls);
    hide RealRight, CountsRight, LocksRight, DataRight, CallsRight, Unique, FreeRight, Store, CallRight,
         IdentityStep, SlotsRight;
    RequestHolds(s, a, v, k, write, calls);
    RequestLocks(s, s', a, v, k);
    RequestData(s, s', a, v, k, write);
    OthersKeep(s, s', v);
    Assemble(s, s');
  }

  lemma RequestHolds(s: Cache, a: nat, v: nat, k: nat, write: bool, calls: map<nat, Call>)
    requires a in s.calls && IsLocker(s.calls[a]) && s.calls[a].buf == v && s.calls[a].WriteSlot? == write
    requires k < |s.slots| && s.slots[k].Empty? && v < |s.bufs|
    requires if write then calls == s.calls - {a}
               else calls == s.calls[a := ReadWait(s.calls[a].dev, s.calls[a].block, v)]
    ensures Holds(s, Caller(a), v) && Reads(s, Caller(a), v) == !write && forall b: nat :: !Holds(s, Request(k), b)
    ensures forall x, b: nat :: Holds(AddRequest(s, v, k, write, calls), x, b) ==
              ((Holds(s, x, b) && x != Caller(a)) || (x == Request(k) && b == v))
    ensures forall x, b: nat :: Holds(AddRequest(s, v, k, write, calls), x, b) ==>
              Reads(AddRequest(s, v, k, write, calls), x, b) == (if x == Request(k) then !write else Reads(s, x, b))
  {
  }

  lemma RequestCalls(s: Cache, a: nat, v: nat, k: nat, write: bool, calls: map<nat, Call>)
    requires CountsRight(s) && CallsRight(s) && LocksRight(s) && a in s.calls && IsLocker(s.calls[a])
    requires s.calls[a].buf == v && s.calls[a].WriteSlot? == write
    requires k < |s.slots| && v < |s.bufs|
    requires if write then calls == s.calls - {a}
               else calls == s.calls[a := ReadWait(s.calls[a].dev, s.calls[a].block, v)]
    ensures CountsRight(AddRequest(s, v, k, write, calls)) && CallsRight(AddRequest(s, v, k, write, calls))
  {
    var s' := AddRequest(s, v, k, write, calls);
    assert Holds(s, Caller(a), v);
    if write { CallReturns(s, s', a, false); } else { CallMoves(s, s', a, calls[a]); }
    forall a' | a' in s'.calls ensures CallRight(s', s'.calls[a']) { assert CallRight(s, s.calls[a']); }
  }

  lemma RequestLocks(s: Cache, s': Cache, a: nat, v: nat, k: nat)
    requires LocksRight(s) && v < |s.bufs| && Holds(s, Caller(a), v) && (forall b: nat :: !Holds(s, Request(k), b))
    requires s'.bufs == s.bufs[v := s.bufs[v].(dirt := false)]
    requires forall x, b: nat :: Holds(s', x, b) == ((Holds(s, x, b) && x != Caller(a)) || (x == Request(k) && b == v))
    ensures LocksRight(s')
  {
    forall b: nat | b < |s.bufs| && s'.bufs[b].lock ensures exists x :: Holds(s', x, b) {
      if b == v { assert Holds(s', Request(k), b); } else { var x :| Holds(s, x, b); assert Holds(s', x, b); }
    }
  }

  lemma RequestData(s: Cache, s': Cache, a: nat, v: nat, k: nat, write: bool)
    requires DataRight(s) && v < |s.bufs| && k < |s.slots| && s.slots[k].Empty? && Holds(s, Caller(a), v)
    requires Reads(s, Caller(a), v) == !write
    requires s'.slots == s.slots[k := Busy(v, write)] && s'.disk == s.disk
    requires s'.bufs == s.bufs[v := s.bufs[v].(dirt := false)]
    requires forall x, b: nat :: Holds(s', x, b) ==> (Holds(s, x, b) && x != Request(k)) || (x == Request(k) && b == v)
    requires forall x, b: nat :: Holds(s', x, b) ==>
               Reads(s', x, b) == (if x == Request(k) then !write else Reads(s, x, b))
    ensures DataRight(s')
  {
    forall b: nat | b < |s'.bufs| ensures WritePending(s', b) == (WritePending(s, b) || (b == v && write)) {
      if WritePending(s, b) {
        var j :| 0 <= j < |s.slots| && s.slots[j].Busy? && s.slots[j].buf == b && s.slots[j].write;
        assert s'.slots[j] == s.slots[j];
      }
      if b == v && write { assert s'.slots[k].write; }
    }
  }

  /** end_request. */
  lemma CompleteKeeps(s: Cache, k: nat, torn: Data)
    requires Inv(s) && WellFormed(s) && k < |s.slots| && s.slots[k].Busy?
    ensures Silent(s, EndRequest(s, k, torn))
  {
    var s' := EndRequest(s, k, torn);
    CompleteOthers(s, k, torn);
    hide CountsRight, LocksRight, DataRight, Unique, FreeRight, Store, CallRight, IdentityStep, SlotsRight,
         RealRight, CallsRight;
    CompleteHolds(s, k, torn);
    CompleteLocks(s, s', s.slots[k].buf, k);
    CompleteData(s, s', k, torn);
    forall id: (nat, nat) | id.0 != 0 ensures Store(s', id) == Store(s, id) { CompleteStore(s, s', k, torn, id); }
    Assemble(s, s');
  }

  lemma CompleteOthers(s: Cache, k: nat, torn: Data)
    requires Unique(s.bufs) && CountsRight(s) && CallsRight(s) && RealRight(s) && FreeRight(s) && SlotsRight(s)
    requires k < |s.slots| && s.slots[k].Busy?
    ensures Unique(EndRequest(s, k, torn).bufs) && CountsRight(EndRequest(s, k, torn))
    ensures CallsRight(EndRequest(s, k, torn))
    ensures RealRight(EndRequest(s, k, torn)) && FreeRight(EndRequest(s, k, torn)) && SlotsRight(EndRequest(s, k, torn))
    ensures IdentityStep(s, EndRequest(s, k, torn))
  {
    hide Unique, CountsRight, CallsRight, RealRight, FreeRight;
    var s' := EndRequest(s, k, torn);
    CompleteBufs(s, s');
    CompleteCalls(s, s');
  }

  /** A completion leaves identities, counts and dirty bits alone, and makes a buffer valid. */
  ghost predicate OnlyFlags(s: Cache, s': Cache) {
    && |s'.bufs| == |s.bufs| && s'.free == s.free && s'.calls == s.calls && s'.users == s.users
    && (forall b :: 0 <= b < |s.bufs| ==>
          && Id(s'.bufs[b]) == Id(s.bufs[b]) && s'.bufs[b].count == s.bufs[b].count && s'.bufs[b].dirt == s.bufs[b].dirt
          && (s'.bufs[b] == s.bufs[b] || s'.bufs[b].uptodate))
  }

  lemma CompleteBufs(s: Cache, s': Cache)
    requires Unique(s.bufs) && CountsRight(s) && RealRight(s) && FreeRight(s) && OnlyFlags(s, s')
    ensures Unique(s'.bufs) && CountsRight(s') && RealRight(s') && FreeRight(s')
  {
  }

  lemma CompleteCalls(s: Cache, s': Cache)
    requires CallsRight(s) && OnlyFlags(s, s')
    ensures CallsRight(s')
  {
    forall a | a in s'.calls ensures CallRight(s', s'.calls[a]) { assert CallRight(s, s.calls[a]); }
  }

  lemma CompleteHolds(s: Cache, k: nat, torn: Data)
    requires k < |s.slots| && s.slots[k].Busy? && s.slots[k].buf < |s.bufs|
    ensures Holds(s, Request(k), s.slots[k].buf)
    ensures forall x, b: nat :: Holds(EndRequest(s, k, torn), x, b) == (Holds(s, x, b) && x != Request(k))
    ensures forall x, b: nat :: Holds(EndRequest(s, k, torn), x, b) ==>
              Reads(EndRequest(s, k, torn), x, b) == Reads(s, x, b)
  {
  }

  lemma CompleteLocks(s: Cache, s': Cache, v: nat, k: nat)
    requires LocksRight(s) && v < |s.bufs| && Holds(s, Request(k), v) && |s'.bufs| == |s.bufs|
    requires s'.bufs == s.bufs[v := s'.bufs[v]] && !s'.bufs[v].lock
    requires forall x, b: nat :: Holds(s', x, b) == (Holds(s, x, b) && x != Request(k))
    ensures LocksRight(s')
  {
    forall x, b: nat | Holds(s', x, b) ensures b != v { assert Holds(s, x, b); }
    forall b: nat | b < |s.bufs| && s'.bufs[b].lock ensures exists x :: Holds(s', x, b) {
      var x :| Holds(s, x, b);
      assert Holds(s', x, b);
    }
  }

  lemma CompleteData(s: Cache, s': Cache, k: nat, torn: Data)
    requires Inv(s) && k < |s.slots| && s.slots[k].Busy? && s' == EndRequest(s, k, torn)
    requires forall x, b: nat :: Holds(s', x, b) ==>
               Holds(s, x, b) && x != Request(k) && Reads(s', x, b) == Reads(s, x, b)
    ensures DataRight(s')
  {
    var v := s.slots[k].buf;
    assert Holds(s, Request(k), v);
    forall x, b: nat | Holds(s', x, b) && b < |s.bufs| ensures s'.bufs[b].uptodate == !Reads(s', x, b) {
      assert Holds(s, x, b);
      assert b != v;
    }
    forall b: nat | b < |s'.bufs| && s'.bufs[b].uptodate && !s'.bufs[b].dirt && !WritePending(s', b)
      ensures s'.bufs[b].data == OnDisk(s'.disk, Id(s'.bufs[b]))
    {
      if b != v { CompleteOther(s, s', k, b); }
    }
    assert Reads(s, Request(k), v) == !s.slots[k].write;
  }

  lemma CompleteOther(s: Cache, s': Cache, k: nat, b: nat)
    requires Inv(s) && k < |s.slots| && s.slots[k].Busy? && b < |s.bufs| && b != s.slots[k].buf
    requires s'.slots == s.slots[k := Empty]
    requires !WritePending(s', b)
    ensures !WritePending(s, b) && Id(s.bufs[b]) != Id(s.bufs[s.slots[k].buf])
  {
    assert Holds(s, Request(k), s.slots[k].buf);
    forall j | 0 <= j < |s.slots| && s.slots[j].Busy? && s.slots[j].buf == b ensures !s.slots[j].write {
      assert s'.slots[j] == s.slots[j];
    }
  }

  lemma CompleteStore(s: Cache, s': Cache, k: nat, torn: Data, id: (nat, nat))
    requires Inv(s) && k < |s.slots| && s.slots[k].Busy? && s' == EndRequest(s, k, torn) && Unique(s'.bufs) && id.0 != 0
    ensures Store(s', id) == Store(s, id)
  {
    var v := s.slots[k].buf;
    assert Holds(s, Request(k), v);
    assert Reads(s, Request(k), v) == !s.slots[k].write;
    if Id(s.bufs[v]) != id {
      SameStore(s, s', id);
    } else {
      FindIs(s.bufs, v);
      FindIs(s'.bufs, v);
    }
  }

  // ---- getblk: a buffer gets a new identity ----

  /** Taking x out of a list without repetitions removes one place. */
  lemma WithoutIs(s: seq<nat>, x: nat) returns (i: nat)
    requires x in s && forall i, j :: 0 <= i < j < |s| ==> s[i] != s[j]
    ensures i < |s| && s[i] == x && Without(s, x) == s[..i] + s[i + 1..]
  {
    i :| i < |s| && s[i] == x;
    WithoutAt(s, i);
  }

  lemma ClaimFree(s: Cache, b: nat, dev: nat, block: nat)
    requires FreeRight(s) && b < |s.bufs|
    ensures FreeRight(Claim(s, b, dev, block))
  {
    MoveToEnd(s.free, b, |s.bufs|);
  }

  lemma MoveToEnd(p: seq<nat>, b: nat, n: nat)
    requires IsPermutation(p, n) && b < n
    ensures IsPermutation(Without(p, b) + [b], n)
  {
    hide Without;
    var i := WithoutIs(p, b);
    Rotated(p, i, n);
  }

  lemma RotatedAt(p: seq<nat>, i: nat, j: nat)
    requires i < |p| && j < |p|
    ensures (p[..i] + p[i + 1..] + [p[i]])[j] == if j < i then p[j] else if j == |p| - 1 then p[i] else p[j + 1]
  {
  }

  lemma Rotated(p: seq<nat>, i: nat, n: nat)
    requires IsPermutation(p, n) && i < n
    ensures IsPermutation(p[..i] + p[i + 1..] + [p[i]], n)
  {
    var q := p[..i] + p[i + 1..] + [p[i]];
    forall j: nat | j < n ensures q[j] == if j < i then p[j] else if j == n - 1 then p[i] else p[j + 1] {
      RotatedAt(p, i, j);
    }
    assert IsPermutation(p, n);
    forall x: nat | x < n ensures x in q {
      assert x in p;
      var k: nat :| k < n && p[k] == x;
      var j: nat := if k < i then k else if k == i then n - 1 else k - 1;
      assert j < n && q[j] == x;
    }
  }

  /** The buffer getblk settles for: unused, unlocked and clean, and the block is nowhere else. */
  ghost predicate Claimable(s: Cache, a: nat, c: Call) {
    && a in s.calls && s.calls[a] == c && c.VictimWait? && c.buf < |s.bufs|
    && s.bufs[c.buf].count == 0 && !s.bufs[c.buf].lock && !s.bufs[c.buf].dirt
    && Find(s.bufs, c.dev, c.block) < 0
  }

  ghost function Claimed(s: Cache, a: nat, c: Call): Cache
    requires Claimable(s, a, c)
  {
    Got(Claim(s, c.buf, c.dev, c.block), a, c.dev, c.block, c.read, c.buf)
  }

  lemma ClaimHolds(s: Cache, a: nat, c: Call)
    requires Claimable(s, a, c) && LocksRight(s)
    ensures forall x, b: nat :: Holds(Claimed(s, a, c), x, b) == Holds(s, x, b)
    ensures forall x, b: nat :: Reads(Claimed(s, a, c), x, b) == Reads(s, x, b)
    ensures forall x :: !Holds(s, x, c.buf)
    ensures forall b :: WritePending(Claimed(s, a, c), b) == WritePending(s, b)
    ensures !WritePending(s, c.buf)
  {
    forall b: nat ensures WritePending(Claimed(s, a, c), b) == WritePending(s, b) {}
    if WritePending(s, c.buf) {
      var k :| 0 <= k < |s.slots| && s.slots[k].Busy? && s.slots[k].buf == c.buf;
      assert Holds(s, Request(k), c.buf);
    }
  }

  lemma ClaimLocks(s: Cache, a: nat, c: Call)
    requires Claimable(s, a, c) && LocksRight(s) && DataRight(s)
    ensures LocksRight(Claimed(s, a, c)) && DataRight(Claimed(s, a, c))
  {
    var s' := Claimed(s, a, c);
    ClaimHolds(s, a, c);
    forall b: nat | b < |s.bufs| && s'.bufs[b].lock ensures exists x :: Holds(s', x, b) {
      var x :| Holds(s, x, b);
      assert Holds(s', x, b);
    }
  }

  lemma ClaimCounts(s: Cache, a: nat, c: Call)
    requires Claimable(s, a, c) && CountsRight(s)
    ensures CountsRight(Claimed(s, a, c))
  {
    var s' := Claimed(s, a, c);
    forall b | 0 <= b < |s.bufs| ensures s'.bufs[b].count == s'.users[b] + |Waiters(s'.calls, b)| {
      if c.read { PutCall(s.calls, a, s'.calls[a], b); } else { DropCall(s.calls, a, b); }
    }
  }

  lemma NotInUse(s: Cache, b: nat)
    requires CountsRight(s) && b < |s.bufs| && s.bufs[b].count == 0
    ensures forall a :: a in s.calls ==> Token(s.calls[a]) != b
  {
    forall a | a in s.calls ensures Token(s.calls[a]) != b { assert a !in Waiters(s.calls, b); }
  }

  lemma ClaimCalls(s: Cache, a: nat, c: Call)
    requires Claimable(s, a, c) && CountsRight(s) && CallsRight(s)
    ensures CallsRight(Claimed(s, a, c))
  {
    var s' := Claimed(s, a, c);
    assert CallRight(s, c);
    NotInUse(s, c.buf);
    forall x | x in s'.calls ensures CallRight(s', s'.calls[x]) {
      if x != a {
        assert CallRight(s, s.calls[x]);
      }
    }
  }

  lemma ClaimStore(s: Cache, a: nat, c: Call, id: (nat, nat))
    requires Claimable(s, a, c) && Unique(s.bufs) && LocksRight(s) && DataRight(s) && id.0 != 0
    ensures Unique(Claimed(s, a, c).bufs)
    ensures Store(Claimed(s, a, c), id) == Store(s, id)
  {
    var s' := Claimed(s, a, c);
    var b := c.buf;
    ClaimHolds(s, a, c);
    assert Unique(s'.bufs);
    if id == (c.dev, c.block) {
      FindIs(s'.bufs, b);
    } else if id == Id(s.bufs[b]) {
      FindIs(s.bufs, b);
      assert Find(s'.bufs, id.0, id.1) == -1;
    } else {
      SameStore(s, s', id);
    }
  }

  lemma ClaimKeeps(s: Cache, a: nat, c: Call)
    requires Inv(s) && Claimable(s, a, c)
    ensures Silent(s, Claimed(s, a, c))
  {
    var s' := Claimed(s, a, c);
    ClaimStore(s, a, c, (1, 0));
    assert CallRight(s, c);
    assert SlotsRight(s') && RealRight(s') && IdentityStep(s, s');
    hide RealRight, CountsRight, LocksRight, DataRight, CallsRight, Unique, FreeRight, Store, IdentityStep, SlotsRight;
    ClaimFree(s, c.buf, c.dev, c.block);
    assert FreeRight(s') by { SameFree(Claim(s, c.buf, c.dev, c.block), s'); }
    ClaimCounts(s, a, c);
    ClaimLocks(s, a, c);
    ClaimCalls(s, a, c);
    forall id: (nat, nat) | id.0 != 0 ensures Store(s', id) == Store(s, id) { ClaimStore(s, a, c, id); }
    Assemble(s, s');
  }

  lemma SameFree(s: Cache, s': Cache)
    requires FreeRight(s) && s'.free == s.free && |s'.bufs| == |s.bufs|
    ensures FreeRight(s')
  {
  }

  // ---- Changes of the data ----

  /** Buffer v, not locked for reading, gets new contents, or loses them. */
  ghost function Written(s: Cache, v: nat, data: Data, valid: bool): Cache
    requires v < |s.bufs|
  {
    SetBuf(s, v, s.bufs[v].(data := data, uptodate := valid, dirt := valid))
  }

  lemma WrittenKeeps(s: Cache, v: nat, data: Data, valid: bool)
    requires Inv(s) && v in s.users && v < |s.bufs|
    requires if valid then s.bufs[v].uptodate || !s.bufs[v].lock else !s.bufs[v].lock && s.bufs[v].count == 1
    ensures Inv(Written(s, v, data, valid)) && IdentityStep(s, Written(s, v, data, valid))
  {
    var s' := Written(s, v, data, valid);
    forall x, b: nat ensures Holds(s', x, b) == Holds(s, x, b) && Reads(s', x, b) == Reads(s, x, b) {}
    forall b: nat | b < |s.bufs| && s'.bufs[b].lock ensures exists x :: Holds(s', x, b) {
      var x :| Holds(s, x, b);
      assert Holds(s', x, b);
    }
    forall b ensures WritePending(s', b) == WritePending(s, b) {}
    assert DataRight(s') by { WrittenData(s, v, data, valid); }
    assert Unique(s'.bufs);
    assert CountsRight(s') && FreeRight(s') && SlotsRight(s') && RealRight(s');
    if !valid { OnlyUser(s, v); }
    forall a | a in s'.calls ensures CallRight(s', s'.calls[a]) { assert CallRight(s, s.calls[a]); }
  }

  /** With a count of one, a user who has a reference has the only one. */
  lemma OnlyUser(s: Cache, b: nat)
    requires CountsRight(s) && b in s.users && b < |s.bufs| && s.bufs[b].count == 1
    ensures forall a :: a in s.calls ==> Token(s.calls[a]) != b
  {
    forall a | a in s.calls ensures Token(s.calls[a]) != b { assert a !in Waiters(s.calls, b); }
  }

  lemma WrittenData(s: Cache, v: nat, data: Data, valid: bool)
    requires LocksRight(s) && DataRight(s) && v < |s.bufs|
    requires if valid then s.bufs[v].uptodate || !s.bufs[v].lock else !s.bufs[v].lock
    ensures DataRight(Written(s, v, data, valid))
  {
    var s' := Written(s, v, data, valid);
    forall x, b: nat ensures Holds(s', x, b) == Holds(s, x, b) && Reads(s', x, b) == Reads(s, x, b) {}
    forall b ensures WritePending(s', b) == WritePending(s, b) {}
  }

  lemma WrittenStore(s: Cache, v: nat, data: Data, valid: bool, id: (nat, nat))
    requires Unique(s.bufs) && v < |s.bufs| && id.0 != 0
    ensures Store(Written(s, v, data, valid), id) ==
            if Id(s.bufs[v]) != id then Store(s, id) else if valid then data else OnDisk(s.disk, id)
  {
    var s' := Written(s, v, data, valid);
    assert Unique(s'.bufs);
    if Id(s.bufs[v]) == id { FindIs(s'.bufs, v); } else { SameStore(s, s', id); }
  }

  // ---- All steps ----

  /** Whichever empty slot make_request finds. */
  lemma FileKeeps(s: Cache, a: nat, k: nat)
    requires Inv(s) && WellFormed(s) && a in s.calls && IsLocker(s.calls[a])
    requires k < (if s.calls[a].SlotWait? then NR_REQUEST else WRITE_SLOTS) && s.slots[k].Empty?
    ensures Silent(s, Filed(s, a, k))
  {
    hide RealRight, CountsRight, LocksRight, DataRight, CallsRight, Unique, FreeRight, Store, IdentityStep,
         SlotsRight, Silent, Inv, AddRequest;
    match s.calls[a]
    case SlotWait(dev, block, b) => RequestKeeps(s, a, b, k, false, s.calls[a := ReadWait(dev, block, b)]);
    case WriteSlot(b) => RequestKeeps(s, a, b, k, true, s.calls - {a});
  }

  lemma RunKeeps(s: Cache, a: nat)
    requires Inv(s) && WellFormed(s) && a in s.calls && CanRun(s, s.calls[a])
    ensures Silent(s, RunCall(s, a))
  {
    var c := s.calls[a];
    assert CallRight(s, c);
    assert Token(c) >= 0 ==> a in Waiters(s.calls, Token(c));
    hide RealRight, CountsRight, LocksRight, DataRight, CallsRight, Unique, FreeRight, Store, IdentityStep,
         SlotsRight, Silent;
    match c
    case Repeat(dev, block, read) => RepeatKeeps(s, a, dev, block, read);
    case HashWait(dev, block, read, b) => HashWaitKeeps(s, a, c);
    case VictimWait(dev, block, read, b) => VictimWaitKeeps(s, a, c);
    case LockWait(dev, block, b) => LockWaitKeeps(s, a, c);
    case SlotWait(dev, block, b) => FileKeeps(s, a, FreeSlot(s.slots, NR_REQUEST));
    case ReadWait(dev, block, b) => ReadWaitKeeps(s, a, b);
    case WriteLock(b) => WriteLockKeeps(s, a, b);
    case WriteSlot(b) => FileKeeps(s, a, FreeSlot(s.slots, WRITE_SLOTS));
  }

  lemma SilentStay(s: Cache)
    requires Inv(s)
    ensures Silent(s, s)
  {
  }

  lemma VictimWaitKeeps(s: Cache, a: nat, c: Call)
    requires Inv(s) && WellFormed(s) && a in s.calls && s.calls[a] == c && c.VictimWait? && !s.bufs[c.buf].lock
    ensures Silent(s, RunVictimWait(s, a, c.dev, c.block, c.read, c.buf))
  {
    assert CallRight(s, c);
    hide RealRight, CountsRight, LocksRight, DataRight, CallsRight, Unique, FreeRight, Store, IdentityStep,
         SlotsRight, Silent;
    if s.bufs[c.buf].count > 0 || (!s.bufs[c.buf].dirt && Find(s.bufs, c.dev, c.block) >= 0) {
      RestartKeeps(s, a, Repeat(c.dev, c.block, c.read));
    } else if s.bufs[c.buf].dirt {
      SilentStay(s);
    } else {
      ClaimKeeps(s, a, c);
    }
  }

  lemma LockWaitKeeps(s: Cache, a: nat, c: Call)
    requires Inv(s) && WellFormed(s) && a in s.calls && s.calls[a] == c && c.LockWait? && !s.bufs[c.buf].lock
    ensures Silent(s, RunLockWait(s, a, c.dev, c.block, c.buf))
  {
    assert CallRight(s, c);
    hide RealRight, CountsRight, LocksRight, DataRight, CallsRight, Unique, FreeRight, Store, IdentityStep,
         SlotsRight, Silent;
    if s.bufs[c.buf].uptodate {
      RestartKeeps(s, a, ReadWait(c.dev, c.block, c.buf));
    } else {
      LockKeeps(s, a, SlotWait(c.dev, c.block, c.buf), c.buf);
    }
  }

  lemma WriteLockKeeps(s: Cache, a: nat, b: nat)
    requires Inv(s) && WellFormed(s) && a in s.calls && s.calls[a] == WriteLock(b) && b < |s.bufs| && !s.bufs[b].lock
    ensures Silent(s, RunWriteLock(s, a, b))
  {
    assert s.bufs[b].dirt ==> s.bufs[b].uptodate && s.bufs[b].dev != 0;
    hide RealRight, CountsRight, LocksRight, DataRight, CallsRight, Unique, FreeRight, Store, IdentityStep,
         SlotsRight, Silent;
    if !s.bufs[b].dirt {
      CleanWriteKeeps(s, a);
    } else {
      LockKeeps(s, a, WriteSlot(b), b);
    }
  }

  lemma SilentIsGood(s: Cache, e: Event, s': Cache)
    requires Silent(s, s') && !e.Modify? && !e.Zero? && !e.Discard?
    ensures Good(s, e, s')
  {
  }

  /** Every step that can happen keeps the invariant, leaves buffers in use alone,
      and is a step of the flat store. */
  lemma StepKeeps(s: Cache, e: Event)
    requires Inv(s) && WellFormed(s) && Enabled(s, e)
    ensures Good(s, e, Apply(s, e))
  {
    hide RealRight, CountsRight, LocksRight, DataRight, CallsRight, Unique, FreeRight, Store, IdentityStep,
         SlotsRight, Silent, Good;
    if e.Modify? {
      ChangeKeeps(s, e, e.buf, e.data, true);
    } else if e.Zero? {
      ChangeKeeps(s, e, e.buf, e.zeros, true);
    } else if e.Discard? {
      ChangeKeeps(s, e, e.buf, s.bufs[e.buf].data, false);
    } else {
      SilentStep(s, e);
      SilentIsGood(s, e, Apply(s, e));
    }
  }

  lemma SilentStep(s: Cache, e: Event)
    requires Inv(s) && WellFormed(s) && Enabled(s, e) && !e.Modify? && !e.Zero? && !e.Discard?
    ensures Silent(s, Apply(s, e))
  {
    hide RealRight, CountsRight, LocksRight, DataRight, CallsRight, Unique, FreeRight, Store, IdentityStep,
         SlotsRight, Silent;
    match e
    case Begin(a, dev, block, read) => BeginKeeps(s, a, Repeat(dev, block, read));
    case BeginWrite(a, b) => BeginKeeps(s, a, WriteLock(b));
    case Run(a) => RunKeeps(s, a);
    case Settle(a, b) => WaitKeeps(s, a, s.calls[a].dev, s.calls[a].block, s.calls[a].read, b);
    case File(a, k) => FileKeeps(s, a, k);
    case Complete(k, torn) => CompleteKeeps(s, k, torn);
    case Release(b) => ReleaseKeeps(s, b);
  }

  lemma ChangeKeeps(s: Cache, e: Event, b: nat, data: Data, valid: bool)
    requires Inv(s) && WellFormed(s) && Enabled(s, e) && b < |s.bufs|
    requires match e
             case Modify(b', d) => b' == b && d == data && valid
             case Zero(b', d) => b' == b && d == data && valid
             case Discard(b') => b' == b && !valid && data == s.bufs[b].data
             case _ => false
    ensures Good(s, e, Apply(s, e))
  {
    var s' := Written(s, b, data, valid);
    assert s' == Apply(s, e);
    WrittenKeeps(s, b, data, valid);
    hide RealRight, CountsRight, LocksRight, DataRight, CallsRight, FreeRight, Store, IdentityStep, SlotsRight;
    forall id: (nat, nat) | id.0 != 0 ensures
        Store(s', id) == if Id(s.bufs[b]) != id then Store(s, id) else if valid then data else OnDisk(s.disk, id) {
      WrittenStore(s, b, data, valid, id);
    }
  }
}

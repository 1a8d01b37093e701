/** Page ownership: mem_map counts exactly the users of every page, and the
    sharing discipline behind copy-on-write (linux-0.11/mm/memory.c). */
module PagingInvariant {
  import opened PageTables
  import opened Basics

  /** A place that can refer to a page: a directory entry or a table entry of tasks 1 to 63. */
  datatype Slot = Dir(d: nat) | Pte(d: nat, i: nat)

  ghost predicate IsSlot(s: Slot) { IsUserDir(s.d) && (s.Pte? ==> s.i < WORDS) }

  ghost function AllSlots(): (r: set<Slot>)
    ensures forall s :: s in r <==> IsSlot(s)
  {
    (set d: nat | d < WORDS && IsUserDir(d) :: Dir(d))
    + (set d: nat, i: nat | d < WORDS && IsUserDir(d) && i < WORDS :: Pte(d, i))
  }

  /** The frame a slot refers to; -1 when it is not present. */
  ghost function Target(m: Mem, s: Slot): int
    requires Shape(m) && IsSlot(s)
  {
    if !DirPresent(m, s.d) then -1
    else match s
      case Dir(d) => m.ram[0][d].frame
      case Pte(d, i) => if Entry(m, d, i).present then Entry(m, d, i).frame else -1
  }

  ghost predicate Writable(m: Mem, s: Slot)
    requires Shape(m) && IsSlot(s)
  {
    s.Pte? && Target(m, s) != -1 && Entry(m, s.d, s.i).rw
  }

  /** Every slot that refers to frame f. */
  ghost function Refs(m: Mem, f: nat): (r: set<Slot>)
    requires Shape(m)
    ensures forall s :: s in r <==> IsSlot(s) && Target(m, s) == f
  {
    set s | s in AllSlots() && Target(m, s) == f
  }

  ghost function Count(m: Mem, f: nat): nat
    requires Shape(m) && LOW <= f < LOW + PAGING_PAGES
  {
    m.cnt[f - LOW]
  }

  /** Linear page within a task: the same for two slots that differ only in the task. */
  ghost predicate SameOffset(s: Slot, s': Slot) {
    s.Pte? && s'.Pte? && s.i == s'.i && s.d % DIRS_PER_TASK == s'.d % DIRS_PER_TASK
  }

  /** Memory is split at frame `start`: below it mem_map holds USED for ever,
      above it every page is counted. `held` are the pages the kernel keeps
      for itself (task structures, pipe buffers, pages being filled). */
  ghost predicate Counted(m: Mem, held: set<nat>, start: nat)
    requires Shape(m)
  {
    && LOW <= start <= |m.ram|
    && (forall f :: start <= f < |m.ram| ==> Count(m, f) == |Refs(m, f)| + (if f in held then 1 else 0))
    && (forall f :: LOW <= f < LOW + PAGING_PAGES && !(start <= f < |m.ram|) ==> Count(m, f) == USED)
    && (forall f :: f in held ==> start <= f < |m.ram|)
  }

  /** A slot refers to a counted page the kernel does not hold, or read-only to a low page. */
  ghost predicate GoodTarget(m: Mem, held: set<nat>, start: nat, s: Slot)
    requires Shape(m) && IsSlot(s)
  {
    var f := Target(m, s);
    || f == -1
    || (start <= f < |m.ram| && f !in held)
    || (s.Pte? && f < KERNEL_ENTRIES && !Writable(m, s))
  }

  /** Two slots may name the same page only as read-only entries at the same
      linear page of different tasks. */
  ghost predicate GoodPair(m: Mem, s: Slot, s': Slot)
    requires Shape(m) && IsSlot(s) && IsSlot(s')
  {
    Target(m, s) == Target(m, s') && Target(m, s) >= LOW && s != s'
    ==> SameOffset(s, s') && !Writable(m, s) && !Writable(m, s')
  }

  ghost predicate Inv(m: Mem, held: set<nat>, start: nat) {
    && Shape(m)
    && Counted(m, held, start)
    && (forall s :: IsSlot(s) ==> GoodTarget(m, held, start, s))
    && (forall s, s' :: IsSlot(s) && IsSlot(s') ==> GoodPair(m, s, s'))
  }

  // ---- How one slot changes the counts ----

  ghost predicate SameElsewhere(m: Mem, m': Mem, x: Slot)
    requires Shape(m) && Shape(m')
  {
    forall s :: IsSlot(s) && s != x ==> Target(m', s) == Target(m, s) && (Writable(m', s) ==> Writable(m, s))
  }

  lemma RefsChange(m: Mem, m': Mem, x: Slot, f: nat)
    requires Shape(m) && Shape(m') && IsSlot(x) && SameElsewhere(m, m', x)
    ensures |Refs(m', f)| == |Refs(m, f)| + (if Target(m', x) == f then 1 else 0) - (if Target(m, x) == f then 1 else 0)
  {
    var a, b := Refs(m, f) - {x}, Refs(m', f) - {x};
    assert a == b;
    assert Refs(m, f) == if Target(m, x) == f then a + {x} else a;
    assert Refs(m', f) == if Target(m', x) == f then b + {x} else b;
  }

  /** A page is mapped at most once per task, so its count never comes near
      USED or the range of an unsigned char. */
  lemma CountBound(m: Mem, held: set<nat>, start: nat, f: nat)
    requires Inv(m, held, start) && start <= f < |m.ram|
    ensures |Refs(m, f)| < NR_TASKS && Count(m, f) < NR_TASKS
  {
    var r := Refs(m, f);
    forall s | s in r ensures GoodTarget(m, held, start, s) {}
    if |r| > 1 {
      forall s, s' | s in r && s' in r && s.d / DIRS_PER_TASK == s'.d / DIRS_PER_TASK ensures s == s' {
        assert GoodPair(m, s, s');
      }
      Injective(r);
      SubsetSize(set s | s in r :: s.d / DIRS_PER_TASK, TasksBelow(NR_TASKS));
    }
  }

  /** An entry is writable only when nothing else uses its page: the count is 1. */
  lemma WritableIsAlone(m: Mem, held: set<nat>, start: nat, s: Slot)
    requires Inv(m, held, start) && IsSlot(s) && Writable(m, s)
    ensures start <= Target(m, s) < |m.ram| && Refs(m, Target(m, s)) == {s} && Count(m, Target(m, s)) == 1
  {
    var f := Target(m, s);
    assert GoodTarget(m, held, start, s);
    forall s' | IsSlot(s') && Target(m, s') == f ensures s' == s { assert GoodPair(m, s, s'); }
    assert Refs(m, f) == {s};
  }

  /** Task numbers 1 to n - 1. */
  ghost function TasksBelow(n: nat): (r: set<nat>)
    requires n > 0
    ensures |r| == n - 1
    ensures forall t :: t in r <==> 1 <= t < n
  {
    if n == 1 then {} else TasksBelow(n - 1) + {n - 1}
  }

  lemma {:induction false} Injective(r: set<Slot>)
    requires forall s, s' :: s in r && s' in r && s.d / DIRS_PER_TASK == s'.d / DIRS_PER_TASK ==> s == s'
    ensures |set s | s in r :: s.d / DIRS_PER_TASK| == |r|
  {
    if r != {} {
      var x :| x in r;
      var r' := r - {x};
      Injective(r');
      assert (set s | s in r :: s.d / DIRS_PER_TASK) ==
          (set s | s in r' :: s.d / DIRS_PER_TASK) + {x.d / DIRS_PER_TASK};
    }
  }

  // ---- One table entry changes ----

  /** m' differs from m, as far as page walks go, at the entry x only. */
  ghost predicate OnlyEntry(m: Mem, m': Mem, x: Slot)
    requires Shape(m) && Shape(m') && IsSlot(x)
  {
    && |m'.ram| == |m.ram| && m'.ram[0] == m.ram[0]
    && forall d: nat, i: nat :: IsUserDir(d) && i < WORDS && DirPresent(m, d) && Pte(d, i) != x ==>
         Entry(m', d, i) == Entry(m, d, i)
  }

  lemma SetPteOnly(m: Mem, held: set<nat>, start: nat, x: Slot, w: Word)
    requires Inv(m, held, start) && IsSlot(x) && x.Pte? && DirPresent(m, x.d)
    ensures OnlyEntry(m, SetPte(m, x.d, x.i, w), x) && Entry(SetPte(m, x.d, x.i, w), x.d, x.i) == w
  {
    var m' := SetPte(m, x.d, x.i, w);
    forall d: nat, i: nat | IsUserDir(d) && i < WORDS && DirPresent(m, d) && Pte(d, i) != x
      ensures Entry(m', d, i) == Entry(m, d, i)
    {
      assert GoodPair(m, Dir(d), Dir(x.d));
    }
  }

  /** Entry x may be made to refer to frame f (with or without write permission). */
  ghost predicate MayMap(m: Mem, held: set<nat>, start: nat, x: Slot, w: Word)
    requires Shape(m) && IsSlot(x)
  {
    || !w.present
    || (w.frame < KERNEL_ENTRIES && !w.rw)
    || (start <= w.frame < |m.ram| && w.frame !in held
        && forall s :: IsSlot(s) && s != x && Target(m, s) == w.frame ==> SameOffset(s, x) && !Writable(m, s) && !w.rw)
  }

  ghost function Delta(m: Mem, x: Slot, f: nat): int
    requires Shape(m) && IsSlot(x)
  {
    if Target(m, x) == f then 1 else 0
  }

  /** Any change of one entry that respects MayMap and moves the counts along keeps the invariant. */
  lemma EntryChange(m: Mem, m': Mem, held: set<nat>, start: nat, x: Slot, w: Word)
    requires Inv(m, held, start) && Shape(m') && IsSlot(x) && x.Pte? && DirPresent(m, x.d)
    requires OnlyEntry(m, m', x) && Entry(m', x.d, x.i) == w
    requires MayMap(m, held, start, x, w)
    requires forall f :: LOW <= f < LOW + PAGING_PAGES ==>
               Count(m', f) == Count(m, f) + Delta(m', x, f) - Delta(m, x, f)
    ensures Inv(m', held, start) && SameElsewhere(m, m', x)
  {
    forall s | IsSlot(s) && s != x
      ensures Target(m', s) == Target(m, s) && (Writable(m', s) <==> Writable(m, s)) && GoodTarget(m', held, start, s)
    {
      assert GoodTarget(m, held, start, s);
    }
    forall s, s' | IsSlot(s) && IsSlot(s') ensures GoodPair(m', s, s') {
      assert GoodPair(m, s, s');
    }
    forall f | start <= f < |m'.ram| ensures Count(m', f) == |Refs(m', f)| + (if f in held then 1 else 0) {
      RefsChange(m, m', x, f);
      assert Count(m', f) == Count(m, f) + Delta(m', x, f) - Delta(m, x, f);
    }
    assert GoodTarget(m, held, start, x);
  }
}

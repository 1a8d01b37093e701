/** Whole-table operations: free_page_tables, copy_page_tables and copy_mem
    (linux-0.11/mm/memory.c, linux-0.11/kernel/fork.c). */
module PagingTables {
  import opened PageTables
  import opened PagingInvariant
  import opened PagingSteps

  ghost predicate Within(d: nat, first: nat, n: nat) { first <= d < first + n }

  /** Outside n directory entries from `first`, nothing a task can see and no reference changes. */
  ghost predicate SameOutside(m: Mem, m': Mem, first: nat, n: nat)
    requires Shape(m) && Shape(m')
  {
    && (forall d: nat, i: nat :: IsUserDir(d) && i < WORDS && !Within(d, first, n) ==>
          ViewAt(m', d, i) == ViewAt(m, d, i))
    && (forall s :: IsSlot(s) && !Within(s.d, first, n) ==> Target(m', s) == Target(m, s))
  }

  ghost predicate NoTables(m: Mem, first: nat, n: nat)
    requires Shape(m)
  {
    forall d: nat :: IsUserDir(d) && Within(d, first, n) ==> !DirPresent(m, d)
  }

  lemma OutsideStep(m: Mem, m1: Mem, m2: Mem, first: nat, n: nat)
    requires Shape(m) && Shape(m1) && Shape(m2) && n > 0
    requires SameOutside(m, m1, first, 1) && SameOutside(m1, m2, first + 1, n - 1)
    ensures SameOutside(m, m2, first, n)
  {
    forall d: nat, i: nat | IsUserDir(d) && i < WORDS && !Within(d, first, n)
      ensures ViewAt(m2, d, i) == ViewAt(m, d, i)
    {
      assert !Within(d, first, 1) && !Within(d, first + 1, n - 1);
    }
    forall s | IsSlot(s) && !Within(s.d, first, n) ensures Target(m2, s) == Target(m, s) {
      assert !Within(s.d, first, 1) && !Within(s.d, first + 1, n - 1);
    }
  }

  /** What the parent's block fd shows at page i. The first fork shows 640 kB of low memory. */
  ghost function ParentView(m: Mem, fd: nat, i: nat): View
    requires Shape(m) && IsDir(fd) && i < WORDS
  {
    if fd != 0 then ViewAt(m, fd, i) else if i < KERNEL_ENTRIES then Low(i) else Unmapped
  }

  /** Blocks td to td + n - 1 of m' show what blocks fd to fd + n - 1 showed in m. */
  ghost predicate Copied(m: Mem, m': Mem, fd: nat, td: nat, n: nat)
    requires Shape(m) && Shape(m') && (n > 0 ==> IsDir(fd) && fd + n <= WORDS && (fd == 0 ==> n == 1))
  {
    forall d: nat, j: nat :: IsUserDir(d) && j < WORDS && Within(d, td, n) ==>
        ViewAt(m', d, j) == ParentView(m, d - td + fd, j)
  }

  ghost predicate SameHeld(m: Mem, m': Mem, held: set<nat>)
    requires |m'.ram| == |m.ram| && forall f :: f in held ==> f < |m.ram|
  {
    forall f :: f in held ==> m'.ram[f] == m.ram[f]
  }

  // ---- free_page_tables ----

  lemma {:induction false} FreeEntriesInv(m: Mem, held: set<nat>, start: nat, d: nat, i: nat)
    requires Inv(m, held, start) && IsUserDir(d) && i <= WORDS && DirPresent(m, d)
    requires forall j :: 0 <= j < i ==> Target(m, Pte(d, j)) == -1
    ensures var r := FreeEntries(m, d, i);
            && r.Done? && Inv(r.mem, held, start) && SameLow(m, r.mem) && SameHeld(m, r.mem, held)
            && SameOutside(m, r.mem, d, 1) && forall j :: 0 <= j < WORDS ==> Target(r.mem, Pte(d, j)) == -1
    decreases WORDS - i
  {
    if i < WORDS {
      FreeEntryInv(m, held, start, d, i);
      var m1 := FreeEntry(m, d, i).mem;
      forall j | 0 <= j < i + 1 ensures Target(m1, Pte(d, j)) == -1 {}
      FreeEntriesInv(m1, held, start, d, i + 1);
    }
  }

  lemma FreeDirInv(m: Mem, held: set<nat>, start: nat, d: nat) returns (m': Mem)
    requires Inv(m, held, start) && IsUserDir(d)
    ensures FreeDir(m, d) == Done(m')
    ensures Inv(m', held, start) && SameLow(m, m') && SameHeld(m, m', held)
    ensures SameOutside(m, m', d, 1) && !DirPresent(m', d)
  {
    m' := m;
    if DirPresent(m, d) {
      FreeEntriesInv(m, held, start, d, 0);
      var m1 := FreeEntries(m, d, 0).mem;
      DropTableInv(m1, held, start, d);
      m' := FreeDir(m, d).mem;
    }
  }

  lemma {:induction false} FreeTablesInv(m: Mem, held: set<nat>, start: nat, d: nat, n: nat) returns (m': Mem)
    requires Inv(m, held, start) && FIRST_DIR <= d && d + n <= WORDS
    ensures FreeTables(m, d, n) == Done(m')
    ensures Inv(m', held, start) && SameLow(m, m') && SameHeld(m, m', held)
    ensures SameOutside(m, m', d, n) && NoTables(m', d, n)
    decreases n
  {
    hide FreeDir;
    if n == 0 {
      m' := m;
    } else {
      var m1 := FreeDirInv(m, held, start, d);
      m' := FreeTablesInv(m1, held, start, d + 1, n - 1);
      FreeTablesUnfold(m, m1, d, n);
      OutsideStep(m, m1, m', d, n);
      NoTablesStep(m1, m', d, n);
    }
  }

  lemma FreeTablesUnfold(m: Mem, m1: Mem, d: nat, n: nat)
    requires Shape(m) && Shape(m1) && n > 0 && FIRST_DIR <= d && d + n <= WORDS && FreeDir(m, d) == Done(m1)
    ensures FreeTables(m, d, n) == FreeTables(m1, d + 1, n - 1)
  {
  }

  lemma NoTablesStep(m1: Mem, m2: Mem, d: nat, n: nat)
    requires Shape(m1) && Shape(m2) && n > 0 && FIRST_DIR <= d && d + n <= WORDS && !DirPresent(m1, d)
    requires SameOutside(m1, m2, d + 1, n - 1) && NoTables(m2, d + 1, n - 1)
    ensures NoTables(m2, d, n)
  {
    forall e: nat | IsUserDir(e) && Within(e, d, n) ensures !DirPresent(m2, e) {
      if e == d {
        assert !Within(Dir(d).d, d + 1, n - 1);
        assert Target(m2, Dir(d)) == Target(m1, Dir(d)) == -1;
      } else {
        assert Within(e, d + 1, n - 1);
      }
    }
  }

  // ---- copy_page_tables ----

  lemma {:induction false} CopyEntriesInv(m: Mem, held: set<nat>, start: nat, fd: nat, td: nat, i: nat)
    requires Inv(m, held, start) && IsDir(fd) && IsUserDir(td) && i <= Span(fd)
    requires fd != td && fd % DIRS_PER_TASK == td % DIRS_PER_TASK && DirPresent(m, fd) && DirPresent(m, td)
    requires forall j :: 0 <= j < i ==> ViewAt(m, td, j) == ParentView(m, fd, j)
    requires forall j :: i <= j < WORDS ==> Target(m, Pte(td, j)) == -1
    ensures var r := CopyEntries(m, fd, td, i);
            && r.Done? && Inv(r.mem, held, start) && SameLow(m, r.mem) && SameHeld(m, r.mem, held)
            && SameOutside(m, r.mem, td, 1)
            && forall j :: 0 <= j < WORDS ==> ViewAt(r.mem, td, j) == ParentView(m, fd, j)
    decreases Span(fd) - i
  {
    hide Inv, CopyEntry, ViewAt, SameLow, SameHeld, SameOutside, Shape, Target;
    ShapeOfInv(m, held, start);
    if i < Span(fd) {
      CopyEntryInv(m, held, start, fd, td, i);
      var m1 := CopyEntry(m, fd, td, i).mem;
      ShapeOfInv(m1, held, start);
      EntryCopied(m, m1, fd, td, i);
      CopyEntriesInv(m1, held, start, fd, td, i + 1);
      var m2 := CopyEntries(m1, fd, td, i + 1).mem;
      ShapeOfInv(m2, held, start);
      HeldThroughout(m, m1, held);
      SameComposed(m, m1, m2, held);
      OutsideTwice(m, m1, m2, td);
    } else {
      HeldThroughout(m, m, held);
      NothingChanged(m, held, td);
      RestUnmapped(m, fd, td);
    }
  }

  lemma HeldThroughout(m: Mem, m': Mem, held: set<nat>)
    requires |m'.ram| == |m.ram| && (forall f :: f in held ==> f < |m.ram|) && forall f :: f in held ==>
               m'.ram[f] == m.ram[f]
    ensures SameHeld(m, m', held)
  {
  }

  lemma NothingChanged(m: Mem, held: set<nat>, td: nat)
    requires Shape(m) && forall f :: f in held ==> f < |m.ram|
    ensures SameLow(m, m) && SameOutside(m, m, td, 1)
  {
  }

  /** Past the entries copied, neither table shows anything. */
  lemma RestUnmapped(m: Mem, fd: nat, td: nat)
    requires Shape(m) && IsDir(fd) && IsUserDir(td)
    requires forall j :: Span(fd) <= j < WORDS ==> Target(m, Pte(td, j)) == -1
    ensures forall j :: Span(fd) <= j < WORDS ==> ViewAt(m, td, j) == ParentView(m, fd, j)
  {
  }

  /** One more entry shows what the parent's shows. */
  lemma EntryCopied(m: Mem, m1: Mem, fd: nat, td: nat, i: nat)
    requires Shape(m) && Shape(m1) && IsDir(fd) && IsUserDir(td) && fd != td && i < Span(fd)
    requires SameViewsBut(m, m1, td, i) && ViewAt(m1, td, i) == SourceView(m, fd, i)
    requires forall j :: 0 <= j < i ==> ViewAt(m, td, j) == ParentView(m, fd, j)
    requires forall s :: IsSlot(s) && s != Pte(td, i) ==> Target(m1, s) == Target(m, s)
    ensures forall j :: 0 <= j < WORDS ==> ParentView(m1, fd, j) == ParentView(m, fd, j)
    ensures forall j :: 0 <= j < i + 1 ==> ViewAt(m1, td, j) == ParentView(m1, fd, j)
    ensures SameOutside(m, m1, td, 1)
  {
    hide ViewAt, Target, Shape;
  }

  lemma OutsideTwice(m: Mem, m1: Mem, m2: Mem, td: nat)
    requires Shape(m) && Shape(m1) && Shape(m2) && SameOutside(m, m1, td, 1) && SameOutside(m1, m2, td, 1)
    ensures SameOutside(m, m2, td, 1)
  {
    hide ViewAt, Target, Shape;
  }

  lemma CopyDirInv(m: Mem, held: set<nat>, start: nat, fd: nat, td: nat)
    requires Inv(m, held, start) && IsDir(fd) && IsUserDir(td) && !DirPresent(m, td)
    requires fd != td && fd % DIRS_PER_TASK == td % DIRS_PER_TASK
    ensures var r := CopyDir(m, fd, td);
            && !r.Panic? && Inv(r.mem, held, start) && SameLow(m, r.mem) && SameHeld(m, r.mem, held)
            && SameOutside(m, r.mem, td, 1)
            && (r.Done? ==> forall j :: 0 <= j < WORDS ==> ViewAt(r.mem, td, j) == ParentView(m, fd, j))
  {
    if DirPresent(m, fd) && FreeFrame(m) != 0 {
      NewTableInv(m, held, start, td);
      var m1 := NewTable(m, td, FreeFrame(m));
      forall j | 0 <= j < WORDS ensures Target(m1, Pte(td, j)) == -1 && ParentView(m1, fd, j) == ParentView(m, fd, j) {
        assert Target(m1, Pte(td, j)) == Target(m, Pte(td, j));
      }
      CopyEntriesInv(m1, held, start, fd, td, 0);
    }
  }

  /** The copy panics exactly if there is a table already: nothing is mapped over. */
  lemma CopyDirPanics(m: Mem, held: set<nat>, start: nat, fd: nat, td: nat)
    requires Inv(m, held, start) && IsDir(fd) && IsUserDir(td) && fd != td && fd % DIRS_PER_TASK == td % DIRS_PER_TASK
    ensures CopyDir(m, fd, td).Panic? <==> m.ram[0][td].present
  {
    hide Inv, CopyEntries;
    ShapeOfInv(m, held, start);
    if !DirPresent(m, td) { CopyDirInv(m, held, start, fd, td); }
  }

  lemma NoTablesAfter(m: Mem, m1: Mem, td: nat, n: nat)
    requires Shape(m) && Shape(m1) && n > 0 && FIRST_DIR <= td && td + n <= WORDS && NoTables(m, td, n)
    requires m1 == m || SameOutside(m, m1, td, 1)
    ensures !DirPresent(m, td) && NoTables(m1, td + 1, n - 1)
  {
    assert Within(td, td, n);
    forall d: nat | IsUserDir(d) && Within(d, td + 1, n - 1) ensures !DirPresent(m1, d) {
      assert Within(d, td, n) && !Within(Dir(d).d, td, 1);
      assert m1 != m ==> Target(m1, Dir(d)) == Target(m, Dir(d)) == -1;
    }
  }

  lemma {:induction false} CopyTablesInv(m: Mem, held: set<nat>, start: nat, fd: nat, td: nat, n: nat)
    requires Inv(m, held, start) && FIRST_DIR <= td && td + n <= WORDS && NoTables(m, td, n)
    requires n > 0 ==> IsDir(fd) && fd + n <= WORDS && (fd == 0 ==> n == 1) && fd % DIRS_PER_TASK == td % DIRS_PER_TASK
    requires fd + n <= td || td + n <= fd
    ensures var r := CopyTables(m, fd, td, n);
            && !r.Panic? && Inv(r.mem, held, start) && SameLow(m, r.mem) && SameHeld(m, r.mem, held)
            && SameOutside(m, r.mem, td, n)
            && (r.Done? ==> Copied(m, r.mem, fd, td, n))
    decreases n
  {
    hide Inv, SameOutside, SameLow, SameHeld, NoTables, ViewAt, ParentView, CopyDir, CopyTables, Copied, Shape;
    ShapeOfInv(m, held, start);
    if n == 0 {
      CopyNothing(m, held, fd, td);
    } else {
      FirstCopied(m, held, start, fd, td, n);
      var r1 := CopyDir(m, fd, td);
      ShapeOfInv(r1.mem, held, start);
      if r1.Done? {
        CopyTablesInv(r1.mem, held, start, fd + 1, td + 1, n - 1);
        var r := CopyTables(r1.mem, fd + 1, td + 1, n - 1);
        ShapeOfInv(r.mem, held, start);
        SameComposed(m, r1.mem, r.mem, held);
        OutsideStep(m, r1.mem, r.mem, td, n);
        if r.Done? { CopiedStep(m, r1.mem, r.mem, fd, td, n); }
      } else {
        OutsideWider(m, r1.mem, td, n);
      }
    }
  }

  /** The first directory entry, and what is left to do. */
  lemma FirstCopied(m: Mem, held: set<nat>, start: nat, fd: nat, td: nat, n: nat)
    requires Inv(m, held, start) && FIRST_DIR <= td && td + n <= WORDS && NoTables(m, td, n) && n > 0
    requires IsDir(fd) && fd + n <= WORDS && (fd == 0 ==> n == 1) && fd % DIRS_PER_TASK == td % DIRS_PER_TASK
    requires fd + n <= td || td + n <= fd
    ensures var r := CopyDir(m, fd, td);
            && !r.Panic? && Inv(r.mem, held, start) && SameLow(m, r.mem) && SameHeld(m, r.mem, held)
            && SameOutside(m, r.mem, td, 1)
            && (if r.Done?
                then && CopyTables(m, fd, td, n) == CopyTables(r.mem, fd + 1, td + 1, n - 1) &&
                    NoTables(r.mem, td + 1, n - 1)
                     && (forall j :: 0 <= j < WORDS ==> ViewAt(r.mem, td, j) == ParentView(m, fd, j))
                     && (fd + 1) % DIRS_PER_TASK == (td + 1) % DIRS_PER_TASK
                else CopyTables(m, fd, td, n) == r)
  {
    hide Inv, SameOutside, SameLow, SameHeld, NoTables, ViewAt, ParentView, CopyDir, CopyTables, Shape;
    ShapeOfInv(m, held, start);
    CopyTablesTurn(m, fd, td, n);
    NextOffset(fd, td);
    NoTablesAfter(m, m, td, n);
    CopyDirInv(m, held, start, fd, td);
    var r := CopyDir(m, fd, td);
    if r.Done? {
      ShapeOfInv(r.mem, held, start);
      NoTablesAfter(m, r.mem, td, n);
    }
  }

  lemma NextOffset(fd: nat, td: nat)
    requires fd % DIRS_PER_TASK == td % DIRS_PER_TASK
    ensures (fd + 1) % DIRS_PER_TASK == (td + 1) % DIRS_PER_TASK
  {
  }

  lemma SameComposed(m: Mem, m1: Mem, m2: Mem, held: set<nat>)
    requires Shape(m) && Shape(m1) && Shape(m2) && SameLow(m, m1) && SameLow(m1, m2) && forall f :: f in held ==>
               f < |m.ram|
    requires SameHeld(m, m1, held) && SameHeld(m1, m2, held)
    ensures SameLow(m, m2) && SameHeld(m, m2, held)
  {
  }

  lemma CopyNothing(m: Mem, held: set<nat>, fd: nat, td: nat)
    requires Shape(m) && FIRST_DIR <= td <= WORDS && forall f :: f in held ==> f < |m.ram|
    ensures CopyTables(m, fd, td, 0) == Done(m) && SameOutside(m, m, td, 0) && Copied(m, m, fd, td, 0)
    ensures SameLow(m, m) && SameHeld(m, m, held)
  {
  }

  lemma OutsideWider(m: Mem, m': Mem, td: nat, n: nat)
    requires Shape(m) && Shape(m') && SameOutside(m, m', td, 1) && n > 0
    ensures SameOutside(m, m', td, n)
  {
    forall d: nat | !Within(d, td, n) ensures !Within(d, td, 1) {}
  }

  lemma CopiedStep(m: Mem, m1: Mem, m2: Mem, fd: nat, td: nat, n: nat)
    requires Shape(m) && Shape(m1) && Shape(m2) && n > 0 && FIRST_DIR <= td && td + n <= WORDS
    requires IsDir(fd) && fd + n <= WORDS && (fd == 0 ==> n == 1) && (fd + n <= td || td + n <= fd)
    requires SameOutside(m, m1, td, 1) && SameOutside(m1, m2, td + 1, n - 1)
    requires forall j :: 0 <= j < WORDS ==> ViewAt(m1, td, j) == ParentView(m, fd, j)
    requires Copied(m1, m2, fd + 1, td + 1, n - 1)
    ensures Copied(m, m2, fd, td, n)
  {
    forall d: nat, j: nat | IsUserDir(d) && j < WORDS && Within(d, td, n)
      ensures ViewAt(m2, d, j) == ParentView(m, d - td + fd, j)
    {
      if d == td {
        assert !Within(d, td + 1, n - 1);
      } else {
        assert Within(d, td + 1, n - 1);
        assert !Within(d - td + fd, td, 1);
      }
    }
  }

  /** copy_mem never panics. When it succeeds the child sees exactly what the
      parent sees; when memory runs out half way, every reference and every
      count is back where it was and the child has no table left. */
  lemma CopyMemInv(m: Mem, held: set<nat>, start: nat, fd: nat, td: nat, n: nat)
    requires Inv(m, held, start) && FIRST_DIR <= td && td + n <= WORDS && NoTables(m, td, n)
    requires n > 0 ==> IsDir(fd) && fd + n <= WORDS && (fd == 0 ==> n == 1) && fd % DIRS_PER_TASK == td % DIRS_PER_TASK
    requires fd + n <= td || td + n <= fd
    ensures var r := CopyMem(m, fd, td, n);
            && !r.Panic? && Inv(r.mem, held, start) && SameLow(m, r.mem) && SameHeld(m, r.mem, held)
            && SameOutside(m, r.mem, td, n)
            && (r.Done? ==> Copied(m, r.mem, fd, td, n))
            && (r.NoMemory? ==> r.mem.cnt == m.cnt && NoTables(r.mem, td, n) && SameViews(m, r.mem)
                                && forall s :: IsSlot(s) ==> Target(r.mem, s) == Target(m, s))
  {
    CopyTablesInv(m, held, start, fd, td, n);
    var r1 := CopyTables(m, fd, td, n);
    if r1.NoMemory? {
      var m2 := FreeTablesInv(r1.mem, held, start, td, n);
      forall s | IsSlot(s) ensures Target(m2, s) == Target(m, s) {
        if Within(s.d, td, n) { assert !DirPresent(m2, s.d) && !DirPresent(m, s.d); }
      }
      forall d: nat, i: nat | IsUserDir(d) && i < WORDS ensures ViewAt(m2, d, i) == ViewAt(m, d, i) {
        if Within(d, td, n) { assert !DirPresent(m2, d) && !DirPresent(m, d); }
      }
      RefsDetermineCounts(m, m2, held, start);
    }
  }

  /** With the same references and the same pages held, mem_map is the same. */
  lemma RefsDetermineCounts(m: Mem, m': Mem, held: set<nat>, start: nat)
    requires Inv(m, held, start) && Inv(m', held, start) && |m'.ram| == |m.ram|
    requires forall s :: IsSlot(s) ==> Target(m', s) == Target(m, s)
    ensures m'.cnt == m.cnt
  {
    forall k | 0 <= k < PAGING_PAGES ensures m'.cnt[k] == m.cnt[k] {
      var f := k + LOW;
      assert Refs(m', f) == Refs(m, f);
      assert Count(m', f) == Count(m, f);
    }
  }
}

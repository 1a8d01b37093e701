/** When a fork is refused for want of memory, and a state to begin with
    (linux-0.11/mm/memory.c, linux-0.11/kernel/fork.c). */
module ForkMemory {
  import opened Basics
  import opened PageTables
  import opened PagingInvariant
  import opened PagingSteps
  import opened PagingTables
  import opened EagerSpaces
  import opened CopyOnWrite

  /** The number of free pages. */
  ghost function FreePages(cnt: seq<nat>): nat {
    if cnt == [] then 0 else FreePages(cnt[..|cnt| - 1]) + if cnt[|cnt| - 1] == 0 then 1 else 0
  }

  lemma {:induction false} FreePagesSet(cnt: seq<nat>, k: nat, v: nat)
    requires k < |cnt|
    ensures FreePages(cnt[k := v]) == FreePages(cnt) - (if cnt[k] == 0 then 1 else 0) + (if v == 0 then 1 else 0)
  {
    var (n, c) := (|cnt| - 1, cnt[k := v]);
    if k == n {
      assert c[..n] == cnt[..n];
    } else {
      FreePagesSet(cnt[..n], k, v);
      assert c[..n] == cnt[..n][k := v];
    }
  }

  lemma {:induction false} FindFreeIs(cnt: seq<nat>, n: nat)
    requires n <= |cnt|
    ensures FindFree(cnt, n) == -1 <==> FreePages(cnt[..n]) == 0
  {
    if n > 0 {
      FindFreeIs(cnt, n - 1);
      assert cnt[..n][..n - 1] == cnt[..n - 1];
    }
  }

  lemma FreeFrameIs(m: Mem)
    requires Shape(m)
    ensures FreeFrame(m) == 0 <==> FreePages(m.cnt) == 0
  {
    FindFreeIs(m.cnt, PAGING_PAGES);
    assert m.cnt[..PAGING_PAGES] == m.cnt;
  }

  lemma ClaimFree(m: Mem)
    requires Shape(m) && FreeFrame(m) != 0
    ensures FreePages(Claim(m, FreeFrame(m)).cnt) == FreePages(m.cnt) - 1
  {
    FreePagesSet(m.cnt, FreeFrame(m) - LOW, 1);
  }

  /** How many of n directory entries from fd on name a table. */
  ghost function Tables(m: Mem, fd: nat, n: nat): nat
    requires Shape(m) && (n > 0 ==> IsDir(fd) && fd + n <= WORDS && (fd == 0 ==> n == 1))
    decreases n
  {
    if n == 0 then 0 else (if DirPresent(m, fd) then 1 else 0) + Tables(m, fd + 1, n - 1)
  }

  lemma {:induction false} TablesSame(m: Mem, m': Mem, fd: nat, n: nat)
    requires Shape(m) && Shape(m') && (n > 0 ==> IsDir(fd) && fd + n <= WORDS && (fd == 0 ==> n == 1))
    requires forall d: nat :: fd <= d < fd + n ==> m'.ram[0][d].present == m.ram[0][d].present
    ensures Tables(m', fd, n) == Tables(m, fd, n)
    decreases n
  {
    if n > 0 { TablesSame(m, m', fd + 1, n - 1); }
  }

  /** Sharing a page uses up none: its count is neither 0 before nor after. */
  lemma CopyEntryFree(m: Mem, held: set<nat>, start: nat, fd: nat, td: nat, i: nat)
    requires Inv(m, held, start) && IsDir(fd) && IsUserDir(td) && i < Span(fd) && DirPresent(m, fd) && DirPresent(m, td)
    ensures CopyEntry(m, fd, td, i).Done? ==> FreePages(CopyEntry(m, fd, td, i).mem.cnt) == FreePages(m.cnt)
  {
    var w := Entry(m, fd, i);
    if w.present && LOW <= w.frame < |m.ram| {
      assert fd != 0;
      var y := Pte(fd, i);
      assert Target(m, y) == w.frame;
      FreeNeverPanics(m, held, start, y);
      assert GoodTarget(m, held, start, y);
      CountBound(m, held, start, w.frame);
      FreePagesSet(m.cnt, w.frame - LOW, (m.cnt[w.frame - LOW] + 1) % 256);
    }
  }

  lemma {:induction false} CopyEntriesFree(m: Mem, held: set<nat>, start: nat, fd: nat, td: nat, i: nat)
    requires Inv(m, held, start) && IsDir(fd) && IsUserDir(td) && i <= Span(fd)
    requires fd != td && fd % DIRS_PER_TASK == td % DIRS_PER_TASK && DirPresent(m, fd) && DirPresent(m, td)
    requires forall j :: i <= j < WORDS ==> Target(m, Pte(td, j)) == -1
    ensures CopyEntries(m, fd, td, i).Done? && FreePages(CopyEntries(m, fd, td, i).mem.cnt) == FreePages(m.cnt)
    decreases Span(fd) - i
  {
    hide Inv, CopyEntry;
    ShapeOfInv(m, held, start);
    if i < Span(fd) {
      CopyEntryInv(m, held, start, fd, td, i);
      CopyEntryFree(m, held, start, fd, td, i);
      CopyEntriesFree(CopyEntry(m, fd, td, i).mem, held, start, fd, td, i + 1);
    }
  }

  /** A table costs a page; there is none left exactly if the copy stops. */
  lemma CopyDirFree(m: Mem, held: set<nat>, start: nat, fd: nat, td: nat)
    requires Inv(m, held, start) && IsDir(fd) && IsUserDir(td) && !DirPresent(m, td)
    requires fd != td && fd % DIRS_PER_TASK == td % DIRS_PER_TASK
    ensures var r := CopyDir(m, fd, td);
            && (r.NoMemory? <==> DirPresent(m, fd) && FreePages(m.cnt) == 0)
            && (r.Done? ==> FreePages(r.mem.cnt) == FreePages(m.cnt) - (if DirPresent(m, fd) then 1 else 0)
                            && forall d: nat :: d < WORDS && d != td ==> r.mem.ram[0][d] == m.ram[0][d])
  {
    hide CopyEntries;
    FreeFrameIs(m);
    if DirPresent(m, fd) && FreeFrame(m) != 0 {
      NewTableInv(m, held, start, td);
      var m1 := NewTable(m, td, FreeFrame(m));
      forall j | 0 <= j < WORDS ensures Target(m1, Pte(td, j)) == -1 {
        assert Target(m1, Pte(td, j)) == Target(m, Pte(td, j));
      }
      ClaimFree(m);
      CopyEntriesFree(m1, held, start, fd, td, 0);
    }
  }

  /** The first directory entry, and the rest. */
  lemma FirstTable(m: Mem, held: set<nat>, start: nat, fd: nat, td: nat, n: nat)
    requires Inv(m, held, start) && FIRST_DIR <= td && td + n <= WORDS && NoTables(m, td, n) && n > 0
    requires IsDir(fd) && fd + n <= WORDS && (fd == 0 ==> n == 1) && fd % DIRS_PER_TASK == td % DIRS_PER_TASK
    requires (fd + n <= td || td + n <= fd)
    ensures var r := CopyDir(m, fd, td);
            if r.Done?
            then && Inv(r.mem, held, start) && NoTables(r.mem, td + 1, n - 1)
                 && FreePages(r.mem.cnt) + Tables(m, fd, n) == FreePages(m.cnt) + Tables(r.mem, fd + 1, n - 1)
                 && CopyTables(m, fd, td, n) == CopyTables(r.mem, fd + 1, td + 1, n - 1)
                 && (FreePages(m.cnt) == 0 ==> !DirPresent(m, fd))
            else r.NoMemory? && CopyTables(m, fd, td, n) == r && FreePages(m.cnt) == 0 && Tables(m, fd, n) > 0
  {
    hide CopyDir, Inv, NoTables, SameOutside, SameLow, SameHeld, ViewAt, Shape;
    ShapeOfInv(m, held, start);
    NoTablesAfter(m, m, td, n);
    CopyDirInv(m, held, start, fd, td);
    CopyDirFree(m, held, start, fd, td);
    var r := CopyDir(m, fd, td);
    ShapeOfInv(r.mem, held, start);
    if r.Done? {
      StillNone(m, r.mem, td, n);
      TablesSame(m, r.mem, fd + 1, n - 1);
    }
  }

  lemma {:induction false} CopyTablesFree(m: Mem, held: set<nat>, start: nat, fd: nat, td: nat, n: nat)
    requires Inv(m, held, start) && FIRST_DIR <= td && td + n <= WORDS && NoTables(m, td, n)
    requires n > 0 ==> IsDir(fd) && fd + n <= WORDS && (fd == 0 ==> n == 1) && fd % DIRS_PER_TASK == td % DIRS_PER_TASK
    requires fd + n <= td || td + n <= fd
    ensures var r := CopyTables(m, fd, td, n);
            && (r.NoMemory? <==> FreePages(m.cnt) < Tables(m, fd, n))
            && (r.Done? ==> FreePages(r.mem.cnt) == FreePages(m.cnt) - Tables(m, fd, n))
    decreases n
  {
    hide CopyDir, Inv, NoTables, CopyTables, Tables, FreePages, Shape;
    ShapeOfInv(m, held, start);
    if n == 0 {
      NothingToCopy(m, fd, td);
    } else {
      FirstTable(m, held, start, fd, td, n);
      if CopyDir(m, fd, td).Done? { CopyTablesFree(CopyDir(m, fd, td).mem, held, start, fd + 1, td + 1, n - 1); }
    }
  }

  lemma NothingToCopy(m: Mem, fd: nat, td: nat)
    requires Shape(m) && FIRST_DIR <= td <= WORDS
    ensures CopyTables(m, fd, td, 0) == Done(m) && Tables(m, fd, 0) == 0
  {
  }

  lemma StillNone(m: Mem, m1: Mem, td: nat, n: nat)
    requires Shape(m) && Shape(m1) && FIRST_DIR <= td && td + n <= WORDS && n > 0 && NoTables(m, td, n)
    requires forall d: nat :: d < WORDS && d != td ==> m1.ram[0][d] == m.ram[0][d]
    ensures NoTables(m1, td + 1, n - 1)
  {
    forall d: nat | IsUserDir(d) && Within(d, td + 1, n - 1) ensures !DirPresent(m1, d) {
      assert Within(d, td, n);
    }
  }

  lemma TableCount(s: Sys, p: nat, c: nat) returns (n: nat)
    requires SysInv(s) && Enabled(s, Fork(p, c)) && p < NR_TASKS
    ensures n == Blocks(ChildOf(s, p, FreeFrame(s.mem)).data) && n <= DIRS_PER_TASK && (p == 0 ==> n == 1)
    ensures Shape(s.mem) && c != p && (n > 0 ==> IsDir(Block(p, 0)) && Block(p, 0) + n <= WORDS)
  {
    if p != 0 { assert GoodTask(s, p); }
    n := Blocks(ChildOf(s, p, FreeFrame(s.mem)).data);
    BlocksBound(ChildOf(s, p, FreeFrame(s.mem)).data);
  }

  /** A fork is refused exactly if there are not enough free pages for the child's task structure and for one table for
      each of the parent's. */
  lemma ForkRefused(s: Sys, p: nat, c: nat)
    requires SysInv(s) && Enabled(s, Fork(p, c)) && p < NR_TASKS
    ensures Shape(s.mem) && Apply(s, Fork(p, c)).Next?
    ensures var n := Blocks(ChildOf(s, p, FreeFrame(s.mem)).data);
            && (n > 0 ==> IsDir(Block(p, 0)) && Block(p, 0) + n <= WORDS && (Block(p, 0) == 0 ==> n == 1))
            && (Apply(s, Fork(p, c)).full <==> FreePages(s.mem.cnt) < 1 + Tables(s.mem, Block(p, 0), n))
  {
    ForkStep(s, p, c);
    var n := TableCount(s, p, c);
    FreeFrameIs(s.mem);
    if FreeFrame(s.mem) != 0 { ForkPages(s, p, c, n); }
  }

  lemma ForkPages(s: Sys, p: nat, c: nat, n: nat)
    requires SysInv(s) && Enabled(s, Fork(p, c)) && p < NR_TASKS && c != p && FreeFrame(s.mem) != 0
    requires n == Blocks(ChildOf(s, p, FreeFrame(s.mem)).data) && n <= DIRS_PER_TASK && (p == 0 ==> n == 1)
    requires n > 0 ==> IsDir(Block(p, 0)) && Block(p, 0) + n <= WORDS
    ensures Shape(s.mem)
    ensures (Apply(s, Fork(p, c)).Next? ==>
              (Apply(s, Fork(p, c)).full <==> FreePages(s.mem.cnt) < 1 + Tables(s.mem, Block(p, 0), n)))
  {
    hide CopyTables, FreeTables, Inv, TablesInside, FreePages, Tables, FreeFrame, NoTables, SameOutside, SameLow,
         SameHeld, Copied, FreePage;
    SysParts(s);
    var f := FreeFrame(s.mem);
    ClaimInv(s.mem, s.held, s.start);
    ClaimFree(s.mem);
    var m0 := Claim(s.mem, f);
    NoChildTables(s, m0, c, n);
    CopyTablesFree(m0, s.held + {f}, s.start, Block(p, 0), Block(c, 0), n);
    CopyTablesInv(m0, s.held + {f}, s.start, Block(p, 0), Block(c, 0), n);
    TablesSame(s.mem, m0, Block(p, 0), n);
  }

  /** A fork that is not refused uses up exactly these pages, and the child is a task like its parent. */
  lemma ForkUses(s: Sys, p: nat, c: nat)
    requires SysInv(s) && Enabled(s, Fork(p, c)) && p < NR_TASKS && !Apply(s, Fork(p, c)).Crash?
    requires !Apply(s, Fork(p, c)).full
    ensures var n := Blocks(ChildOf(s, p, FreeFrame(s.mem)).data);
            && (n > 0 ==> IsDir(Block(p, 0)) && Block(p, 0) + n <= WORDS && (Block(p, 0) == 0 ==> n == 1))
            && FreePages(Apply(s, Fork(p, c)).sys.mem.cnt)
               == FreePages(s.mem.cnt) - 1 - Tables(s.mem, Block(p, 0), n)
            && Apply(s, Fork(p, c)).sys.tasks == s.tasks[c := ChildOf(s, p, FreeFrame(s.mem))]
  {
    hide CopyTables, FreeTables, Inv, TablesInside, FreePages, Tables, FreeFrame, NoTables, SameOutside, SameLow,
         SameHeld, Copied, FreePage, Claim, ChildOf;
    var n := TableCount(s, p, c);
    SysParts(s);
    var f := FreeFrame(s.mem);
    ForkHadPage(s, p, c);
    ClaimInv(s.mem, s.held, s.start);
    ClaimFree(s.mem);
    var m0 := Claim(s.mem, f);
    NoChildTables(s, m0, c, n);
    CopyTablesFree(m0, s.held + {f}, s.start, Block(p, 0), Block(c, 0), n);
    ClaimKeepsTables(s.mem, f, Block(p, 0), n);
    ForkIs(s, p, c, n);
  }

  lemma ForkHadPage(s: Sys, p: nat, c: nat)
    requires SysInv(s) && Enabled(s, Fork(p, c)) && !Apply(s, Fork(p, c)).Crash? && !Apply(s, Fork(p, c)).full
    ensures FreeFrame(s.mem) != 0
  {
    hide CopyMem;
  }

  lemma ClaimKeepsTables(m: Mem, f: nat, fd: nat, n: nat)
    requires Shape(m) && LOW <= f < |m.ram| && (n > 0 ==> IsDir(fd) && fd + n <= WORDS && (fd == 0 ==> n == 1))
    ensures Tables(Claim(m, f), fd, n) == Tables(m, fd, n)
  {
    TablesSame(m, Claim(m, f), fd, n);
  }

  lemma ForkIs(s: Sys, p: nat, c: nat, n: nat)
    requires SysInv(s) && Enabled(s, Fork(p, c)) && p < NR_TASKS && FreeFrame(s.mem) != 0
    requires n == Blocks(ChildOf(s, p, FreeFrame(s.mem)).data) && n <= DIRS_PER_TASK && (p == 0 ==> n == 1)
    requires n > 0 ==> IsDir(Block(p, 0)) && Block(p, 0) + n <= WORDS
    requires !Apply(s, Fork(p, c)).Crash? && !Apply(s, Fork(p, c)).full
    ensures var (f, r) := (FreeFrame(s.mem), CopyTables(Claim(s.mem, FreeFrame(s.mem)), Block(p, 0), Block(c, 0), n));
            r.Done? && Apply(s, Fork(p, c)).sys == Sys(r.mem, s.held + {f}, s.tasks[c := ChildOf(s, p, f)], s.start)
  {
    hide CopyTables, FreeTables, Inv, FreeFrame, Claim, FreePage;
  }

  /** A child that exits and is released gives everything back: every page is counted as before the fork, and held and
      mapped by whom it was. */
  lemma ExitUndoesFork(s: Sys, p: nat, c: nat) returns (s1: Sys, s2: Sys, s3: Sys)
    requires SysInv(s) && Enabled(s, Fork(p, c)) && p < NR_TASKS && !Apply(s, Fork(p, c)).Crash?
    requires !Apply(s, Fork(p, c)).full
    ensures Apply(s, Fork(p, c)) == Next(s1, false) && SysInv(s1) && Shape(s1.mem)
    ensures Enabled(s1, Exit(c)) && Apply(s1, Exit(c)) == Next(s2, false) && SysInv(s2) && Shape(s2.mem)
    ensures Enabled(s2, Release(c)) && Apply(s2, Release(c)) == Next(s3, false) && SysInv(s3) && Shape(s3.mem)
    ensures Shape(s.mem) && s3.mem.cnt == s.mem.cnt && s3.held == s.held && s3.tasks == s.tasks
    ensures forall x :: IsSlot(x) ==> Target(s3.mem, x) == Target(s.mem, x)
    ensures Meaning(s3).view == Meaning(s).view
  {
    hide SysInv, Inv, Meaning, Shape, SameOutside, NoTables, SameLow, SameHeld, FreeSpace, CopyTables, Target,
         FreeFrame, Claim, ViewAt, Copied, EagerStep, CopyMem;
    ShapeOf(s);
    ForkStep(s, p, c);
    s1 := Apply(s, Fork(p, c)).sys;
    var f, n := ForkResult(s, p, c, s1);
    ShapeOf(s1);
    ExitStep(s1, c);
    s2 := Apply(s1, Exit(c)).sys;
    ShapeOf(s2);
    var m2 := FreeSpaceInv(s1, c);
    ReleaseStep(s2, c);
    s3 := Apply(s2, Release(c)).sys;
    ShapeOf(s3);
    Released(s2, c);
    var child := ChildOf(s, p, f);
    assert s.held + {f} - {f} == s.held && s.tasks[c := child][c := child.(alive := false)] - {c} == s.tasks;
    forall x | IsSlot(x) ensures Target(s3.mem, x) == Target(s.mem, x) { TargetBack(s, s1.mem, s2.mem, c, n, x); }
    forall d: nat, i: nat | IsUserDir(d) && i < WORDS ensures ViewAt(s3.mem, d, i) == ViewAt(s.mem, d, i) {
      ViewBack(s, s1.mem, s2.mem, c, n, d, i);
    }
    ViewStays(s, s3);
    SysParts(s);
    SysParts(s3);
    RefsDetermineCounts(s.mem, s3.mem, s.held, s.start);
  }

  lemma TargetBack(s: Sys, m1: Mem, m2: Mem, c: nat, n: nat, x: Slot)
    requires SysInv(s) && Shape(s.mem) && Shape(m1) && Shape(m2) && 1 <= c < NR_TASKS && c !in s.tasks && IsSlot(x)
    requires n <= DIRS_PER_TASK && SameOutside(s.mem, m1, Block(c, 0), n)
    requires SameOutside(m1, m2, Block(c, 0), DIRS_PER_TASK) && NoTables(m2, Block(c, 0), DIRS_PER_TASK)
    ensures Target(m2, x) == Target(s.mem, x)
  {
    hide Inv, ViewAt, Shape;
    if Within(x.d, Block(c, 0), DIRS_PER_TASK) {
      assert !DirPresent(m2, x.d);
      assert x.d / DIRS_PER_TASK == c;
      assert !DirPresent(s.mem, x.d);
    } else {
      assert !Within(x.d, Block(c, 0), n);
    }
  }

  lemma ViewBack(s: Sys, m1: Mem, m2: Mem, c: nat, n: nat, d: nat, i: nat)
    requires SysInv(s) && Shape(s.mem) && Shape(m1) && Shape(m2) && 1 <= c < NR_TASKS && c !in s.tasks
    requires n <= DIRS_PER_TASK && SameOutside(s.mem, m1, Block(c, 0), n) && IsUserDir(d) && i < WORDS
    requires SameOutside(m1, m2, Block(c, 0), DIRS_PER_TASK) && NoTables(m2, Block(c, 0), DIRS_PER_TASK)
    ensures ViewAt(m2, d, i) == ViewAt(s.mem, d, i)
  {
    hide Inv, Shape;
    if Within(d, Block(c, 0), DIRS_PER_TASK) {
      assert !DirPresent(m2, d);
      assert d / DIRS_PER_TASK == c;
      assert !DirPresent(s.mem, d);
    } else {
      assert !Within(d, Block(c, 0), n);
    }
  }

  lemma ForkResult(s: Sys, p: nat, c: nat, s1: Sys) returns (f: nat, n: nat)
    requires SysInv(s) && Enabled(s, Fork(p, c)) && p < NR_TASKS && Apply(s, Fork(p, c)) == Next(s1, false)
    ensures Shape(s.mem) && Shape(s1.mem) && n <= DIRS_PER_TASK && SameOutside(s.mem, s1.mem, Block(c, 0), n)
    ensures f !in s.held && s1.held == s.held + {f} && s1.tasks == s.tasks[c := ChildOf(s, p, f)]
    ensures s1.start == s.start && |s1.mem.ram| == |s.mem.ram| && 1 <= c < NR_TASKS && c !in s.tasks
  {
    hide CopyTables, FreeTables, Inv, FreeFrame, FreePage, SameOutside, SameLow, SameHeld, Copied;
    n := TableCount(s, p, c);
    f := FreeFrame(s.mem);
    ForkHadPage(s, p, c);
    var r := ForkTables(s, p, c, n);
  }

  lemma Released(s: Sys, t: nat)
    requires SysInv(s) && Shape(s.mem) && t in s.tasks && !s.tasks[t].alive
    ensures var r := Apply(s, Release(t)); r.Next? ==>
              && Shape(r.sys.mem) && r.sys.held == s.held - {s.tasks[t].page} && r.sys.tasks == s.tasks - {t}
              && r.sys.start == s.start && |r.sys.mem.ram| == |s.mem.ram|
              && SameViews(s.mem, r.sys.mem) && forall x :: IsSlot(x) ==> Target(r.sys.mem, x) == Target(s.mem, x)
  {
    assert GoodTask(s, t);
    ReleaseInv(s.mem, s.held, s.start, s.tasks[t].page);
  }

  lemma SysParts(s: Sys)
    requires SysInv(s)
    ensures Inv(s.mem, s.held, s.start) && Shape(s.mem)
  {
  }

  // ---- A state to begin with ----

  /** 16 MB, of which everything above `start` is free: head.s has made the directory and one table. */
  lemma BootExists(start: nat) returns (s: Sys)
    requires LOW <= start <= LOW + PAGING_PAGES
    ensures Boot(s) && s.start == start && |s.mem.ram| == LOW + PAGING_PAGES
  {
    var directory := ZeroPage()[0 := Fresh(1)];
    var table := seq(WORDS, i requires 0 <= i < WORDS => Fresh(i));
    var ram := seq(LOW + PAGING_PAGES, f requires f >= 0 => if f == 0 then directory else if f == 1 then table
        else ZeroPage());
    var cnt := seq(PAGING_PAGES, k requires k >= 0 => if k + LOW >= start then 0 else USED);
    s := Sys(Mem(ram, cnt), {}, map[], start);
    assert Shape(s.mem);
  }
}

/** Two-level page tables kept in physical memory, as in linux-0.11/mm/memory.c.
    Physical memory is a sequence of 1024-word pages; the page directory is
    page 0 and every page table is itself a page, so nothing but the invariant
    of module PagingInvariant keeps tables and user data apart. */
module PageTables {

  const LOW := 256              // first frame above LOW_MEM (1 MB)
  const PAGING_PAGES := 3840    // frames counted by mem_map (15 MB)
  const USED := 100
  const WORDS := 1024           // words in a page, entries in a table
  const KERNEL_ENTRIES := 160   // 0xA0: entries copied by the first fork
  const FIRST_DIR := 16         // first directory entry of task 1
  const DIRS_PER_TASK := 16     // 64 MB of linear space per task

  /** A 32-bit word of memory, split the way section 4.3 of Intel SDM volume 3A
      splits a table entry. Every word of memory has this form (see module
      EntryFormat), data words included. */
  datatype Word = Word(frame: nat, hi: nat, dirty: bool, mid: nat, user: bool, rw: bool, present: bool)

  const ZERO := Word(0, 0, false, 0, false, false, false)

  /** The entry `page | 7`: present, writable, user, clean. */
  function Fresh(f: nat): Word { Word(f, 0, false, 0, true, true, true) }

  function ZeroPage(): seq<Word> { seq(WORDS, _ => ZERO) }

  datatype Mem = Mem(ram: seq<seq<Word>>, cnt: seq<nat>)

  /** mem_map and the pages have the sizes the code assumes, the kernel's own
      tables are in place (directory entry 0 names page 1, whose first 160
      entries map the low pages one to one), and every other table lies above
      LOW_MEM. */
  ghost predicate Shape(m: Mem) {
    && LOW < |m.ram| <= LOW + PAGING_PAGES
    && |m.cnt| == PAGING_PAGES
    && (forall f :: 0 <= f < |m.ram| ==> |m.ram[f]| == WORDS)
    && m.ram[0][0].present && m.ram[0][0].frame == 1
    && (forall i :: 0 <= i < KERNEL_ENTRIES ==> m.ram[1][i].present && m.ram[1][i].frame == i)
    && (forall d :: FIRST_DIR <= d < WORDS && m.ram[0][d].present ==> LOW <= m.ram[0][d].frame < |m.ram|)
    && (forall k :: 0 <= k < PAGING_PAGES && m.cnt[k] == 0 ==> k + LOW < |m.ram|)
  }

  /** Directory entries the code below walks: the kernel's first one and those of tasks 1 to 63. */
  predicate IsDir(d: nat) { d == 0 || FIRST_DIR <= d < WORDS }

  predicate IsUserDir(d: nat) { FIRST_DIR <= d < WORDS }

  ghost predicate DirPresent(m: Mem, d: nat)
    requires Shape(m) && IsDir(d)
  {
    m.ram[0][d].present
  }

  /** The page walk: entry i of the table that directory entry d names. */
  ghost function Entry(m: Mem, d: nat, i: nat): Word
    requires Shape(m) && IsDir(d) && i < WORDS && DirPresent(m, d)
  {
    m.ram[m.ram[0][d].frame][i]
  }

  ghost function SetPte(m: Mem, d: nat, i: nat, w: Word): (r: Mem)
    requires Shape(m) && IsUserDir(d) && i < WORDS && DirPresent(m, d)
    ensures Shape(r) && |r.ram| == |m.ram|
  {
    var t := m.ram[0][d].frame;
    m.(ram := m.ram[t := m.ram[t][i := w]])
  }

  ghost function SetDir(m: Mem, d: nat, w: Word): (r: Mem)
    requires Shape(m) && IsUserDir(d) && (w.present ==> LOW <= w.frame < |m.ram|)
    ensures Shape(r) && |r.ram| == |m.ram|
  {
    m.(ram := m.ram[0 := m.ram[0][d := w]])
  }

  /** mem_map[f]++ on an unsigned char. */
  ghost function Inc(m: Mem, f: nat): (r: Mem)
    requires Shape(m) && LOW <= f < |m.ram|
    ensures Shape(r) && r.ram == m.ram
  {
    m.(cnt := m.cnt[f - LOW := (m.cnt[f - LOW] + 1) % 256])
  }

  ghost function Dec(m: Mem, f: nat): (r: Mem)
    requires Shape(m) && LOW <= f < |m.ram| && m.cnt[f - LOW] > 0
    ensures Shape(r) && r.ram == m.ram
  {
    m.(cnt := m.cnt[f - LOW := m.cnt[f - LOW] - 1])
  }

  // ---- get_free_page and free_page ----

  /** The last free index below n, or -1. */
  ghost function FindFree(cnt: seq<nat>, n: nat): (k: int)
    requires n <= |cnt|
    ensures -1 <= k < n
    ensures k >= 0 ==> cnt[k] == 0
    ensures forall j :: k < j < n ==> cnt[j] != 0
  {
    if n == 0 then -1 else if cnt[n - 1] == 0 then n - 1 else FindFree(cnt, n - 1)
  }

  /** The frame get_free_page hands out; 0 when memory is full. */
  ghost function FreeFrame(m: Mem): (f: nat)
    requires Shape(m)
    ensures f != 0 ==> LOW <= f < |m.ram| && m.cnt[f - LOW] == 0
  {
    var k := FindFree(m.cnt, PAGING_PAGES);
    if k < 0 then 0 else k + LOW
  }

  ghost function Claim(m: Mem, f: nat): (r: Mem)
    requires Shape(m) && LOW <= f < |m.ram|
    ensures Shape(r) && |r.ram| == |m.ram|
  {
    Mem(m.ram[f := ZeroPage()], m.cnt[f - LOW := 1])
  }

  /** How a call ends: normally, out of memory (having changed what it changed),
      or in panic(), which here also stands for an unchecked index or count
      going out of range. Module PagingInvariant proves it unreachable. */
  datatype Outcome = Done(mem: Mem) | NoMemory(mem: Mem) | Panic

  ghost function FreePage(m: Mem, f: nat): (r: Outcome)
    requires Shape(m)
    ensures r.Done? ==> Shape(r.mem) && r.mem.ram == m.ram
    ensures !r.NoMemory?
  {
    if f < LOW then Done(m)
    else if f >= |m.ram| then Panic
    else if m.cnt[f - LOW] == 0 then Panic
    else Done(Dec(m, f))
  }

  // ---- free_page_tables ----

  /** One round of the inner loop: release what the entry maps, zero the entry. */
  ghost function FreeEntry(m: Mem, d: nat, i: nat): (r: Outcome)
    requires Shape(m) && IsUserDir(d) && i < WORDS && DirPresent(m, d)
    ensures r.Done? ==> Shape(r.mem) && r.mem.ram[0] == m.ram[0] && |r.mem.ram| == |m.ram|
    ensures !r.NoMemory?
  {
    var w := Entry(m, d, i);
    var r1 := if w.present then FreePage(m, w.frame) else Done(m);
    if r1.Panic? then Panic else Done(SetPte(r1.mem, d, i, ZERO))
  }

  ghost function FreeEntries(m: Mem, d: nat, i: nat): (r: Outcome)
    requires Shape(m) && IsUserDir(d) && i <= WORDS && DirPresent(m, d)
    ensures r.Done? ==> Shape(r.mem) && r.mem.ram[0] == m.ram[0] && |r.mem.ram| == |m.ram|
    ensures !r.NoMemory?
    decreases WORDS - i
  {
    if i == WORDS then Done(m)
    else
      var r1 := FreeEntry(m, d, i);
      if r1.Panic? then Panic else FreeEntries(r1.mem, d, i + 1)
  }

  /** One round of the outer loop. */
  ghost function FreeDir(m: Mem, d: nat): (r: Outcome)
    requires Shape(m) && IsUserDir(d)
    ensures r.Done? ==> Shape(r.mem) && |r.mem.ram| == |m.ram|
    ensures !r.NoMemory?
  {
    if !DirPresent(m, d) then Done(m)
    else
      var r1 := FreeEntries(m, d, 0);
      if r1.Panic? then Panic
      else
        var r2 := FreePage(r1.mem, m.ram[0][d].frame);
        if r2.Panic? then Panic else Done(SetDir(r2.mem, d, ZERO))
  }

  ghost function FreeTables(m: Mem, d: nat, n: nat): (r: Outcome)
    requires Shape(m) && FIRST_DIR <= d && d + n <= WORDS
    ensures r.Done? ==> Shape(r.mem) && |r.mem.ram| == |m.ram|
    ensures !r.NoMemory?
    decreases n
  {
    if n == 0 then Done(m)
    else
      var r1 := FreeDir(m, d);
      if r1.Panic? then Panic else FreeTables(r1.mem, d + 1, n - 1)
  }

  // ---- copy_page_tables ----

  /** One round of the inner loop: both entries become read-only and the page
      gains a user, unless it lies in the low megabyte. Panic stands for
      indexing mem_map beyond the installed memory. */
  ghost function CopyEntry(m: Mem, fd: nat, td: nat, i: nat): (r: Outcome)
    requires Shape(m) && IsDir(fd) && IsUserDir(td) && i < Span(fd)
    requires DirPresent(m, fd) && DirPresent(m, td)
    ensures r.Done? ==> Shape(r.mem) && r.mem.ram[0] == m.ram[0] && |r.mem.ram| == |m.ram|
    ensures !r.NoMemory?
  {
    var w := Entry(m, fd, i);
    if !w.present then Done(m)
    else
      var ro := w.(rw := false);
      var m1 := SetPte(m, td, i, ro);
      if w.frame < LOW then Done(m1)
      else if w.frame >= |m.ram| then Panic
      else Done(Inc(SetPte(m1, fd, i, ro), w.frame))
  }

  /** Entries copied from a table: 160 of the kernel's, all 1024 of a task's. */
  function Span(fd: nat): nat { if fd == 0 then KERNEL_ENTRIES else WORDS }

  ghost function CopyEntries(m: Mem, fd: nat, td: nat, i: nat): (r: Outcome)
    requires Shape(m) && IsDir(fd) && IsUserDir(td) && i <= Span(fd)
    requires DirPresent(m, fd) && DirPresent(m, td)
    ensures r.Done? ==> Shape(r.mem) && r.mem.ram[0] == m.ram[0] && |r.mem.ram| == |m.ram|
    ensures !r.NoMemory?
    decreases Span(fd) - i
  {
    if i == Span(fd) then Done(m)
    else
      var r1 := CopyEntry(m, fd, td, i);
      if r1.Panic? then Panic else CopyEntries(r1.mem, fd, td, i + 1)
  }

  /** One round of the outer loop. */
  ghost function CopyDir(m: Mem, fd: nat, td: nat): (r: Outcome)
    requires Shape(m) && IsDir(fd) && IsUserDir(td)
    ensures !r.Panic? ==> Shape(r.mem) && |r.mem.ram| == |m.ram|
  {
    if DirPresent(m, td) then Panic
    else if !DirPresent(m, fd) then Done(m)
    else
      var f := FreeFrame(m);
      if f == 0 then NoMemory(m)
      else CopyEntries(SetDir(Claim(m, f), td, Fresh(f)), fd, td, 0)
  }

  ghost function CopyTables(m: Mem, fd: nat, td: nat, n: nat): (r: Outcome)
    requires Shape(m) && FIRST_DIR <= td && td + n <= WORDS
    requires n > 0 ==> IsDir(fd) && fd + n <= WORDS && (fd == 0 ==> n == 1)
    ensures !r.Panic? ==> Shape(r.mem) && |r.mem.ram| == |m.ram|
    decreases n
  {
    if n == 0 then Done(m)
    else
      var r1 := CopyDir(m, fd, td);
      if !r1.Done? then r1 else CopyTables(r1.mem, fd + 1, td + 1, n - 1)
  }

  lemma CopyTablesTurn(m: Mem, fd: nat, td: nat, n: nat)
    requires Shape(m) && FIRST_DIR <= td && td + n <= WORDS && n > 0
    requires IsDir(fd) && fd + n <= WORDS && (fd == 0 ==> n == 1)
    ensures CopyTables(m, fd, td, n) == var r := CopyDir(m, fd, td);
            if !r.Done? then r else CopyTables(r.mem, fd + 1, td + 1, n - 1)
  {
    hide CopyDir, Shape;
  }

  /** copy_mem: copy the parent's tables, take everything back when memory runs out. */
  ghost function CopyMem(m: Mem, fd: nat, td: nat, n: nat): (r: Outcome)
    requires Shape(m) && FIRST_DIR <= td && td + n <= WORDS
    requires n > 0 ==> IsDir(fd) && fd + n <= WORDS && (fd == 0 ==> n == 1)
    ensures !r.Panic? ==> Shape(r.mem) && |r.mem.ram| == |m.ram|
  {
    var r1 := CopyTables(m, fd, td, n);
    if !r1.NoMemory? then r1
    else
      var r2 := FreeTables(r1.mem, td, n);
      if r2.Panic? then Panic else NoMemory(r2.mem)
  }

  // ---- put_page, un_wp_page, try_to_share ----

  /** put_page: NoMemory when the table itself cannot be allocated. */
  ghost function PutPage(m: Mem, f: nat, d: nat, i: nat): (r: Outcome)
    requires Shape(m) && IsUserDir(d) && i < WORDS
    ensures !r.Panic? && Shape(r.mem) && |r.mem.ram| == |m.ram|
  {
    if DirPresent(m, d) then Done(SetPte(m, d, i, Fresh(f)))
    else
      var t := FreeFrame(m);
      if t == 0 then NoMemory(m)
      else Done(SetPte(SetDir(Claim(m, t), d, Fresh(t)), d, i, Fresh(f)))
  }

  /** un_wp_page: reuse a page nobody else maps, copy any other. */
  ghost function UnWriteProtect(m: Mem, d: nat, i: nat): (r: Outcome)
    requires Shape(m) && IsUserDir(d) && i < WORDS && DirPresent(m, d)
    ensures !r.Panic? ==> Shape(r.mem) && |r.mem.ram| == |m.ram|
  {
    var w := Entry(m, d, i);
    if w.frame >= |m.ram| then Panic
    else if w.frame >= LOW && m.cnt[w.frame - LOW] == 1 then Done(SetPte(m, d, i, w.(rw := true)))
    else
      var f := FreeFrame(m);
      if f == 0 then NoMemory(m)
      else
        var m1 := Claim(m, f);
        if w.frame >= LOW && m1.cnt[w.frame - LOW] == 0 then Panic
        else
          var m2 := if w.frame >= LOW then Dec(m1, w.frame) else m1;
          var m3 := SetPte(m2, d, i, Fresh(f));
          Done(m3.(ram := m3.ram[f := m3.ram[w.frame]]))
  }

  datatype Shared = Shared(mem: Mem, ok: bool) | ShareNoMemory | SharePanic

  /** try_to_share: page i of the table at fd, if it is present and clean, is
      mapped read-only at (td, i) as well. */
  ghost function TryToShare(m: Mem, fd: nat, td: nat, i: nat): (r: Shared)
    requires Shape(m) && IsUserDir(fd) && IsUserDir(td) && i < WORDS
    ensures r.Shared? ==> Shape(r.mem) && |r.mem.ram| == |m.ram|
  {
    if !DirPresent(m, fd) then Shared(m, false)
    else
      var w := Entry(m, fd, i);
      if !w.present || w.dirty || w.frame >= |m.ram| || w.frame < LOW then Shared(m, false)
      else
        var t := FreeFrame(m);
        if !DirPresent(m, td) && t == 0 then ShareNoMemory
        else
          var m1 := if DirPresent(m, td) then m else SetDir(Claim(m, t), td, Fresh(t));
          if Entry(m1, td, i).present then SharePanic
          else
            var ro := w.(rw := false);
            Shared(Inc(SetPte(SetPte(m1, fd, i, ro), td, i, ro), w.frame), true)
  }
}

/** The paging code itself, over physical memory and mem_map as arrays updated
    in place (linux-0.11/mm/memory.c). Each method is proved equal to the
    function of module PageTables that modules PagingInvariant to CopyOnWrite
    reason about. Addresses are in bytes, as in the source. */
module MemoryManager {
  import opened PageTables
  import opened EagerSpaces

  const PAGE := 4096

  /** Ok; out of memory (the source returns -1 or 0, or calls oom); panic. */
  datatype Status = Ok | NoMem | Panicked

  /** The method ended as the function says. After a panic nothing more is claimed. */
  ghost predicate Ends(r: Outcome, st: Status, m: Mem) {
    match st
    case Ok => r == Done(m)
    case NoMem => r == NoMemory(m)
    case Panicked => r == Panic
  }

  /** The directory entry of a linear address: (address >> 20) & 0xffc, as an index. */
  function DirOf(address: nat): nat { address / BLOCK % WORDS }

  /** (address >> 12) & 0x3ff */
  function EntryOf(address: nat): nat { address / PAGE % WORDS }

  /** Task n's linear space starts at directory entry 16 n. */
  lemma TaskBase(n: nat)
    requires n < 64
    ensures n * SPACE % BLOCK == 0 && DirOf(n * SPACE) == DIRS_PER_TASK * n
  {
    assert n * SPACE == n * DIRS_PER_TASK * BLOCK;
    assert n * SPACE / BLOCK == n * DIRS_PER_TASK;
  }

  lemma LimitBlocks(limit: nat)
    requires limit <= SPACE
    ensures Blocks(limit) <= DIRS_PER_TASK
  {
  }

  // One turn of each loop, as an equation.

  lemma FreeTablesTurn(m: Mem, d: nat, n: nat)
    requires Shape(m) && FIRST_DIR <= d && d + n <= WORDS && n > 0
    ensures FreeTables(m, d, n) == var r := FreeDir(m, d); if r.Panic? then Panic else FreeTables(r.mem, d + 1, n - 1)
  {
    hide FreeDir, Shape;
  }

  lemma FreeTablesEnd(m: Mem, d: nat)
    requires Shape(m) && FIRST_DIR <= d <= WORDS
    ensures FreeTables(m, d, 0) == Done(m)
  {
  }

  lemma FreeEntriesTurn(m: Mem, d: nat, i: nat)
    requires Shape(m) && IsUserDir(d) && i < WORDS && DirPresent(m, d)
    ensures FreeEntries(m, d, i) == var r := FreeEntry(m, d, i);
            if r.Panic? then Panic else FreeEntries(r.mem, d, i + 1)
  {
    hide FreeEntry, Shape;
  }

  lemma CopyTablesEnd(m: Mem, fd: nat, td: nat)
    requires Shape(m) && FIRST_DIR <= td <= WORDS
    ensures CopyTables(m, fd, td, 0) == Done(m)
  {
  }

  /** un_wp_page, case by case. */
  lemma UnWriteProtectTurn(m: Mem, d: nat, i: nat)
    requires Shape(m) && IsUserDir(d) && i < WORDS && DirPresent(m, d)
    ensures var (w, f, r) := (Entry(m, d, i), FreeFrame(m), UnWriteProtect(m, d, i));
            if w.frame >= |m.ram| then r == Panic
            else if w.frame >= LOW && m.cnt[w.frame - LOW] == 1 then r == Done(SetPte(m, d, i, w.(rw := true)))
            else if f == 0 then r == NoMemory(m)
            else
              var m1 := Claim(m, f);
              if w.frame >= LOW && m1.cnt[w.frame - LOW] == 0 then r == Panic
              else
                var m2 := if w.frame >= LOW then Dec(m1, w.frame) else m1;
                DirPresent(m2, d) &&
                var m3 := SetPte(m2, d, i, Fresh(f));
                r == Done(m3.(ram := m3.ram[f := m3.ram[w.frame]]))
  {
  }

  lemma CopyEntriesTurn(m: Mem, fd: nat, td: nat, i: nat)
    requires Shape(m) && IsDir(fd) && IsUserDir(td) && i < Span(fd) && DirPresent(m, fd) && DirPresent(m, td)
    ensures CopyEntries(m, fd, td, i) == var r := CopyEntry(m, fd, td, i);
            if r.Panic? then Panic else CopyEntries(r.mem, fd, td, i + 1)
  {
    hide CopyEntry, Shape;
  }

  class Memory {
    const ram: array<seq<Word>>
    const memMap: array<nat>

    ghost function Abs(): Mem
      reads ram, memMap
    {
      Mem(ram[..], memMap[..])
    }

    ghost predicate Valid()
      reads ram, memMap
    {
      Shape(Abs())
    }

    /** mem_init: every page is in use except those from start to end. */
    constructor (ram: array<seq<Word>>, memMap: array<nat>, start: nat, end: nat)
      requires memMap.Length == PAGING_PAGES && LOW <= start <= end && end == ram.Length <= LOW + PAGING_PAGES
      modifies memMap
      ensures this.ram == ram && this.memMap == memMap
      ensures forall k :: 0 <= k < PAGING_PAGES ==> memMap[k] == if start <= k + LOW < end then 0 else USED
    {
      this.ram := ram;
      this.memMap := memMap;
      new;
      var i := 0;
      while i < PAGING_PAGES
        invariant i <= PAGING_PAGES
        invariant forall k :: 0 <= k < i ==> memMap[k] == USED
      {
        memMap[i] := USED;
        i := i + 1;
      }
      i := start - LOW;
      var left := end - start;
      while left > 0
        invariant 0 <= left && i + left == end - LOW && start - LOW <= i
        invariant forall k :: 0 <= k < PAGING_PAGES ==> memMap[k] == if start - LOW <= k < i then 0 else USED
      {
        memMap[i] := 0;
        i := i + 1;
        left := left - 1;
      }
    }

    /** Scan mem_map backwards for a zero, mark the page used and clear it. */
    method GetFreePage() returns (addr: nat)
      requires Valid()
      modifies ram, memMap
      ensures Valid() && addr == FreeFrame(old(Abs())) * PAGE
      ensures Abs() == if addr == 0 then old(Abs()) else Claim(old(Abs()), addr / PAGE)
    {
      var k := PAGING_PAGES;
      ghost var m := Abs();
      while k > 0 && memMap[k - 1] != 0
        invariant 0 <= k <= PAGING_PAGES && Abs() == m
        invariant FindFree(m.cnt, PAGING_PAGES) == FindFree(m.cnt, k)
      {
        k := k - 1;
      }
      if k == 0 { return 0; }
      memMap[k - 1] := 1;
      var f := k - 1 + LOW;
      ram[f] := ZeroPage();
      assert ram[..] == m.ram[f := ZeroPage()] && memMap[..] == m.cnt[k - 1 := 1];
      addr := f * PAGE;
    }

    method FreePage(addr: nat) returns (st: Status)
      requires Valid()
      modifies memMap
      ensures st != NoMem && Ends(PageTables.FreePage(old(Abs()), addr / PAGE), st, Abs())
      ensures st == Ok ==> Valid()
    {
      var f := addr / PAGE;
      if f < LOW { return Ok; }
      if f >= ram.Length { return Panicked; }
      if memMap[f - LOW] != 0 {
        memMap[f - LOW] := memMap[f - LOW] - 1;
        assert memMap[..] == old(memMap[..])[f - LOW := old(memMap[f - LOW]) - 1];
        return Ok;
      }
      memMap[f - LOW] := 0;
      return Panicked;
    }

    /** *pg_table = w, for entry i of the table named by directory entry d. */
    method StoreEntry(d: nat, i: nat, w: Word)
      requires Valid() && IsUserDir(d) && i < WORDS && DirPresent(Abs(), d)
      modifies ram
      ensures Valid() && Abs() == SetPte(old(Abs()), d, i, w)
    {
      var t := ram[0][d].frame;
      assert t == Abs().ram[0][d].frame;
      ram[t] := ram[t][i := w];
      assert ram[..] == old(Abs()).ram[t := old(Abs()).ram[t][i := w]];
    }

    method StoreDir(d: nat, w: Word)
      requires Valid() && IsUserDir(d) && (w.present ==> LOW <= w.frame < ram.Length)
      modifies ram
      ensures Valid() && Abs() == SetDir(old(Abs()), d, w)
    {
      ram[0] := ram[0][d := w];
      assert ram[..] == old(Abs()).ram[0 := old(Abs()).ram[0][d := w]];
    }

    method FreePageTables(from: nat, size: nat) returns (st: Status)
      requires Valid()
      requires from != 0 ==> FIRST_DIR <= DirOf(from) && DirOf(from) + Blocks(size) <= WORDS
      modifies ram, memMap
      ensures from % BLOCK != 0 || from == 0 ==> st == Panicked
      ensures from % BLOCK == 0 && from != 0 ==>
                st != NoMem && Ends(FreeTables(old(Abs()), DirOf(from), Blocks(size)), st, Abs())
      ensures st == Ok ==> Valid()
    {
      if from % BLOCK != 0 { return Panicked; }
      if from == 0 { return Panicked; }
      st := FreeDirs(DirOf(from), Blocks(size));
    }

    /** The outer loop. */
    method FreeDirs(first: nat, n: nat) returns (st: Status)
      requires Valid() && FIRST_DIR <= first && first + n <= WORDS
      modifies ram, memMap
      ensures st != NoMem && Ends(FreeTables(old(Abs()), first, n), st, Abs())
      ensures st == Ok ==> Valid()
    {
      hide FreeTables, FreeEntries;
      var left := n;
      var dir := first;
      ghost var m := Abs();
      while left > 0
        invariant 0 <= left && Valid() && FIRST_DIR <= dir && dir + left <= WORDS
        invariant FreeTables(Abs(), dir, left) == FreeTables(m, first, n)
        decreases left
      {
        FreeTablesTurn(Abs(), dir, left);
        if ram[0][dir].present {
          var ok := FreeOneTable(dir);
          if !ok { return Panicked; }
        }
        left := left - 1;
        dir := dir + 1;
      }
      FreeTablesEnd(Abs(), dir);
      return Ok;
    }

    /** The body of the outer loop, for a directory entry that is present. */
    method FreeOneTable(dir: nat) returns (ok: bool)
      requires Valid() && IsUserDir(dir) && DirPresent(Abs(), dir)
      modifies ram, memMap
      ensures FreeDir(old(Abs()), dir) == if ok then Done(Abs()) else Panic
      ensures ok ==> Valid()
    {
      hide FreeEntries, FreeEntry;
      var table := ram[0][dir].frame;
      assert table == Abs().ram[0][dir].frame;
      ok := FreeAllEntries(dir);
      if !ok { return; }
      var st := FreePage(table * PAGE);
      if st == Panicked { return false; }
      StoreDir(dir, ZERO);
      return true;
    }

    method FreeAllEntries(dir: nat) returns (ok: bool)
      requires Valid() && IsUserDir(dir) && DirPresent(Abs(), dir)
      modifies ram, memMap
      ensures FreeEntries(old(Abs()), dir, 0) == if ok then Done(Abs()) else Panic
      ensures ok ==> Valid()
    {
      var nr := 0;
      ghost var m := Abs();
      while nr < WORDS
        invariant nr <= WORDS && Valid() && ram[..][0] == m.ram[0] && ram.Length == |m.ram|
        invariant FreeEntries(Abs(), dir, nr) == FreeEntries(m, dir, 0)
      {
        FreeEntriesTurn(Abs(), dir, nr);
        hide FreeEntries, FreeEntry;
        ok := FreeOneEntry(dir, nr);
        if !ok { return; }
        nr := nr + 1;
      }
      return true;
    }

    method FreeOneEntry(dir: nat, nr: nat) returns (ok: bool)
      requires Valid() && IsUserDir(dir) && DirPresent(Abs(), dir) && nr < WORDS
      modifies ram, memMap
      ensures FreeEntry(old(Abs()), dir, nr) == if ok then Done(Abs()) else Panic
      ensures ok ==> Valid() && ram[..][0] == old(ram[..][0])
    {
      var w := ram[ram[0][dir].frame][nr];
      assert w == Entry(Abs(), dir, nr);
      if w.present {
        var st := FreePage(w.frame * PAGE);
        if st == Panicked { return false; }
      }
      StoreEntry(dir, nr, ZERO);
      return true;
    }

    method CopyPageTables(from: nat, to: nat, size: nat) returns (st: Status)
      requires Valid() && FIRST_DIR <= DirOf(to) && DirOf(to) + Blocks(size) <= WORDS
      requires if from == 0 then Blocks(size) <= 1 else FIRST_DIR <= DirOf(from) && DirOf(from) + Blocks(size) <= WORDS
      modifies ram, memMap
      ensures from % BLOCK != 0 || to % BLOCK != 0 ==> st == Panicked
      ensures from % BLOCK == 0 && to % BLOCK == 0 ==>
                Ends(CopyTables(old(Abs()), DirOf(from), DirOf(to), Blocks(size)), st, Abs())
      ensures st != Panicked ==> Valid()
    {
      if from % BLOCK != 0 || to % BLOCK != 0 { return Panicked; }
      st := CopyDirs(DirOf(from), DirOf(to), Blocks(size));
    }

    /** The outer loop. */
    method CopyDirs(from: nat, to: nat, n: nat) returns (st: Status)
      requires Valid() && FIRST_DIR <= to && to + n <= WORDS
      requires n > 0 ==> IsDir(from) && from + n <= WORDS && (from == 0 ==> n == 1)
      modifies ram, memMap
      ensures Ends(CopyTables(old(Abs()), from, to, n), st, Abs())
      ensures st != Panicked ==> Valid()
    {
      hide CopyTables, CopyEntries;
      var fromDir: nat, toDir: nat, left := from, to, n;
      ghost var m := Abs();
      while left > 0
        invariant 0 <= left && Valid() && FIRST_DIR <= toDir && toDir + left <= WORDS
        invariant left > 0 ==> IsDir(fromDir) && fromDir + left <= WORDS && (fromDir == 0 ==> left == 1)
        invariant CopyTables(Abs(), fromDir, toDir, left) == CopyTables(m, from, to, n)
        decreases left
      {
        CopyTablesTurn(Abs(), fromDir, toDir, left);
        if ram[0][toDir].present { return Panicked; }
        if ram[0][fromDir].present {
          st := CopyOneTable(fromDir, toDir);
          if st != Ok { return; }
        }
        left, fromDir, toDir := left - 1, fromDir + 1, toDir + 1;
      }
      CopyTablesEnd(Abs(), fromDir, toDir);
      return Ok;
    }

    /** The body of the outer loop, when the parent has a table there and the child has none. */
    method CopyOneTable(fromDir: nat, toDir: nat) returns (st: Status)
      requires Valid() && IsDir(fromDir) && IsUserDir(toDir) && DirPresent(Abs(), fromDir) && !DirPresent(Abs(), toDir)
      modifies ram, memMap
      ensures Ends(CopyDir(old(Abs()), fromDir, toDir), st, Abs())
      ensures st != Panicked ==> Valid()
    {
      hide CopyEntries, CopyEntry;
      var there := NewTable(toDir);
      if !there { return NoMem; }
      var ok := CopyAllEntries(fromDir, toDir);
      return if ok then Ok else Panicked;
    }

    method CopyAllEntries(fromDir: nat, toDir: nat) returns (ok: bool)
      requires Valid() && IsDir(fromDir) && IsUserDir(toDir) && DirPresent(Abs(), fromDir) && DirPresent(Abs(), toDir)
      modifies ram, memMap
      ensures CopyEntries(old(Abs()), fromDir, toDir, 0) == if ok then Done(Abs()) else Panic
      ensures ok ==> Valid()
    {
      var i := 0;
      ghost var m := Abs();
      while i < Span(fromDir)
        invariant i <= Span(fromDir) && Valid() && ram[..][0] == m.ram[0] && ram.Length == |m.ram|
        invariant CopyEntries(Abs(), fromDir, toDir, i) == CopyEntries(m, fromDir, toDir, 0)
      {
        CopyEntriesTurn(Abs(), fromDir, toDir, i);
        hide CopyEntries, CopyEntry;
        ok := CopyOneEntry(fromDir, toDir, i);
        if !ok { return; }
        i := i + 1;
      }
      return true;
    }

    method CopyOneEntry(fromDir: nat, toDir: nat, i: nat) returns (ok: bool)
      requires Valid() && IsDir(fromDir) && IsUserDir(toDir) && i < Span(fromDir)
      requires DirPresent(Abs(), fromDir) && DirPresent(Abs(), toDir)
      modifies ram, memMap
      ensures CopyEntry(old(Abs()), fromDir, toDir, i) == if ok then Done(Abs()) else Panic
      ensures ok ==> Valid() && ram[..][0] == old(ram[..][0])
    {
      var w := ram[ram[0][fromDir].frame][i];
      assert w == Entry(Abs(), fromDir, i);
      if !w.present { return true; }
      w := w.(rw := false);
      StoreEntry(toDir, i, w);
      if w.frame >= LOW {
        if w.frame >= ram.Length { return false; }
        StoreEntry(fromDir, i, w);
        AddUser(w.frame);
      }
      return true;
    }

    /** mem_map[f]++ */
    method AddUser(f: nat)
      requires Valid() && LOW <= f < ram.Length
      modifies memMap
      ensures Valid() && Abs() == Inc(old(Abs()), f)
    {
      memMap[f - LOW] := (memMap[f - LOW] + 1) % 256;
      assert memMap[..] == old(Abs()).cnt[f - LOW := (old(Abs()).cnt[f - LOW] + 1) % 256];
    }

    /** copy_mem: the linear space of task nr starts at nr * 64 MB. */
    method CopyMem(oldBase: nat, nr: nat, limit: nat) returns (st: Status)
      requires Valid() && 1 <= nr < 64 && limit <= SPACE && oldBase % SPACE == 0 && oldBase < 64 * SPACE
      requires oldBase == 0 ==> Blocks(limit) <= 1
      modifies ram, memMap
      ensures Ends(PageTables.CopyMem(old(Abs()), DirOf(oldBase), DIRS_PER_TASK * nr, Blocks(limit)), st, Abs())
      ensures st != Panicked ==> Valid()
    {
      hide CopyTables, FreeTables, DirOf, Blocks;
      var newBase := nr * SPACE;
      TaskBase(nr);
      TaskBase(oldBase / SPACE);
      assert oldBase / SPACE * SPACE == oldBase;
      LimitBlocks(limit);
      st := CopyPageTables(oldBase, newBase, limit);
      if st == NoMem {
        st := FreePageTables(newBase, limit);
        if st == Ok { st := NoMem; }
      }
    }

    /** put_page: the page returned, or 0 when out of memory. */
    method PutPage(page: nat, address: nat) returns (r: nat)
      requires Valid() && page >= PAGE && FIRST_DIR * BLOCK <= address < WORDS * BLOCK
      modifies ram, memMap
      ensures r == page || r == 0
      ensures Ends(PageTables.PutPage(old(Abs()), page / PAGE, DirOf(address), EntryOf(address)),
                   if r == 0 then NoMem else Ok, Abs())
      ensures Valid()
    {
      var d := DirOf(address);
      if !ram[0][d].present {
        var there := NewTable(d);
        if !there { return 0; }
      }
      StoreEntry(d, EntryOf(address), Fresh(page / PAGE));
      return page;
    }

    /** un_wp_page, on entry i of the table named by directory entry d. */
    method UnWpPage(d: nat, i: nat) returns (st: Status)
      requires Valid() && IsUserDir(d) && i < WORDS && DirPresent(Abs(), d)
      modifies ram, memMap
      ensures Ends(UnWriteProtect(old(Abs()), d, i), st, Abs())
      ensures st != Panicked ==> Valid()
    {
      hide UnWriteProtect, SetPte;
      ghost var m := Abs();
      UnWriteProtectTurn(m, d, i);
      var w := ram[ram[0][d].frame][i];
      assert w == Entry(m, d, i);
      var page := w.frame;
      if page >= ram.Length { return Panicked; }
      if page >= LOW && memMap[page - LOW] == 1 {
        StoreEntry(d, i, w.(rw := true));
        return Ok;
      }
      var newPage := GetFreePage();
      if newPage == 0 { return NoMem; }
      if page >= LOW {
        if memMap[page - LOW] == 0 { return Panicked; }
        memMap[page - LOW] := memMap[page - LOW] - 1;
        assert memMap[..] == Dec(Claim(m, newPage / PAGE), page).cnt;
      }
      StoreEntry(d, i, Fresh(newPage / PAGE));
      ghost var m3 := Abs();
      ram[newPage / PAGE] := ram[page];
      assert ram[..] == m3.ram[newPage / PAGE := m3.ram[page]];
      return Ok;
    }

    /** do_wp_page and write_verify: run un_wp_page on the entry of an address
        if it is present and read-only. */
    method WriteVerify(address: nat) returns (st: Status)
      requires Valid() && FIRST_DIR * BLOCK <= address < WORDS * BLOCK
      modifies ram, memMap
      ensures var m := old(Abs());
              var d, i := DirOf(address), EntryOf(address);
              if DirPresent(m, d) && Entry(m, d, i).present && !Entry(m, d, i).rw
                  then Ends(UnWriteProtect(m, d, i), st, Abs())
              else st == Ok && Abs() == m
      ensures st != Panicked ==> Valid()
    {
      var d, i := DirOf(address), EntryOf(address);
      if !ram[0][d].present { return Ok; }
      var w := ram[ram[0][d].frame][i];
      if w.present && !w.rw {
        st := UnWpPage(d, i);
      } else {
        return Ok;
      }
    }

    /** try_to_share: `address` is relative to the tasks' data segments. */
    method TryToShare(address: nat, pStart: nat, currentStart: nat) returns (ok: bool, st: Status)
      requires Valid() && address < SPACE
      requires SPACE <= pStart < 64 * SPACE && pStart % SPACE == 0 && SPACE <= currentStart < 64 * SPACE
      requires currentStart % SPACE == 0
      modifies ram, memMap
      ensures var r := PageTables.TryToShare(old(Abs()), DirOf(pStart) + DirOf(address),
                                          DirOf(currentStart) + DirOf(address), EntryOf(address));
              match st
              case Ok => r == Shared(Abs(), ok)
              case NoMem => r == ShareNoMemory
              case Panicked => r == SharePanic
      ensures st != Panicked ==> Valid()
    {
      ok, st := ShareFrom(DirOf(pStart) + DirOf(address), DirOf(currentStart) + DirOf(address), EntryOf(address));
    }

    method ShareFrom(fd: nat, td: nat, i: nat) returns (ok: bool, st: Status)
      requires Valid() && IsUserDir(fd) && IsUserDir(td) && i < WORDS
      modifies ram, memMap
      ensures var r := PageTables.TryToShare(old(Abs()), fd, td, i);
              match st
              case Ok => r == Shared(Abs(), ok)
              case NoMem => r == ShareNoMemory
              case Panicked => r == SharePanic
      ensures st != Panicked ==> Valid()
    {
      ghost var m := Abs();
      if !ram[0][fd].present { return false, Ok; }
      var w := ram[ram[0][fd].frame][i];
      assert w == Entry(m, fd, i);
      if !w.present || w.dirty { return false, Ok; }
      if w.frame >= ram.Length || w.frame < LOW { return false, Ok; }
      if !ram[0][td].present {
        var there := NewTable(td);
        if !there { return false, NoMem; }
      }
      st := ShareEntry(fd, td, i, w.(rw := false));
      return st == Ok, st;
    }

    /** Give directory entry d an empty table. */
    method NewTable(d: nat) returns (ok: bool)
      requires Valid() && IsUserDir(d)
      modifies ram, memMap
      ensures Valid() && ok == (FreeFrame(old(Abs())) != 0)
      ensures Abs() == if ok then SetDir(Claim(old(Abs()), FreeFrame(old(Abs()))), d, Fresh(FreeFrame(old(Abs()))))
                else old(Abs())
    {
      var t := GetFreePage();
      if t == 0 { return false; }
      StoreDir(d, Fresh(t / PAGE));
      return true;
    }

    /** The page becomes read-only for both. */
    method ShareEntry(fd: nat, td: nat, i: nat, w: Word) returns (st: Status)
      requires Valid() && IsUserDir(fd) && IsUserDir(td) && i < WORDS && LOW <= w.frame < ram.Length
      requires DirPresent(Abs(), fd) && DirPresent(Abs(), td)
      modifies ram, memMap
      ensures var m := old(Abs());
              if Entry(m, td, i).present then st == Panicked
              else st == Ok && Abs() == Inc(SetPte(SetPte(m, fd, i, w), td, i, w), w.frame)
      ensures st == Ok ==> Valid()
    {
      var target := ram[ram[0][td].frame][i];
      assert target == Entry(Abs(), td, i);
      if target.present { return Panicked; }
      StoreEntry(fd, i, w);
      StoreEntry(td, i, w);
      AddUser(w.frame);
      return Ok;
    }
  }
}

/** Runs of the paging code. Every event keeps the ownership invariant, never
    panics, and is a step of the eager machine of module EagerSpaces: lazily
    shared address spaces cannot be told from private ones. */
module CopyOnWrite {
  import opened Basics
  import opened PageTables
  import opened PagingInvariant
  import opened PagingSteps
  import opened PagingTables
  import opened EagerSpaces

  datatype Sys = Sys(mem: Mem, held: set<nat>, tasks: map<nat, Task>, start: nat)

  ghost predicate GoodTask(s: Sys, t: nat)
    requires t in s.tasks
  {
    && 1 <= t < NR_TASKS
    && 0 < s.tasks[t].data <= SPACE && s.tasks[t].code <= s.tasks[t].data
    && s.tasks[t].page in s.held
    && forall u :: u in s.tasks && u != t ==> s.tasks[u].page != s.tasks[t].page
  }

  /** Tables exist only inside the limits of living tasks. */
  ghost predicate TablesInside(s: Sys)
    requires Shape(s.mem)
  {
    forall d: nat :: IsUserDir(d) && DirPresent(s.mem, d) ==>
      var t := d / DIRS_PER_TASK;
      t in s.tasks && s.tasks[t].alive && d % DIRS_PER_TASK < Blocks(s.tasks[t].data)
  }

  ghost predicate SysInv(s: Sys) {
    && Inv(s.mem, s.held, s.start)
    && (forall t :: t in s.tasks ==> GoodTask(s, t))
    && TablesInside(s)
  }

  ghost predicate Living(s: Sys, t: nat) { t in s.tasks && s.tasks[t].alive }

  /** Page i of block k lies inside the data segment of a living task. */
  ghost predicate Inside(s: Sys, t: nat, k: nat, i: nat) {
    Living(s, t) && k < Blocks(s.tasks[t].data) && i < WORDS && t < NR_TASKS && k < DIRS_PER_TASK && t > 0
  }

  ghost predicate Spare(s: Sys, f: nat) { f in s.held && forall t :: t in s.tasks ==> s.tasks[t].page != f }

  /** When the kernel (or the processor) can make each event happen. */
  ghost predicate Enabled(s: Sys, e: Event)
    requires Shape(s.mem)
  {
    match e
    case Fork(p, c) => (p == 0 || Living(s, p)) && 1 <= c < NR_TASKS && c !in s.tasks
    case Exit(t) => Living(s, t)
    case Release(t) => t in s.tasks && !s.tasks[t].alive
    case Exec(t, code, data) => Living(s, t) && 0 < data <= SPACE && code <= data
    case TakePage => true
    case DropPage(f) => Spare(s, f)
    case FillPage(f, contents) => Spare(s, f) && |contents| == WORDS
    case GivePage(f, t, k, i) => Spare(s, f) && Inside(s, t, k, i) && ViewAt(s.mem, Block(t, k), i) == Unmapped
    case Share(t, p, k, i) => Inside(s, t, k, i) && Living(s, p) && p != t && 1 <= p < NR_TASKS &&
           ViewAt(s.mem, Block(t, k), i) == Unmapped
    case Verify(t, k, i) => Inside(s, t, k, i)
    case Write(t, k, i, j, v) => Inside(s, t, k, i) && j < WORDS && ViewAt(s.mem, Block(t, k), i) != Unmapped
    case WriteLow(f, j, v) => 5 <= f < LOW && j < WORDS
  }

  datatype Next = Next(sys: Sys, full: bool) | Crash

  /** copy_process as far as memory goes: a page for the task structure, then
      copy_mem; everything is given back when memory runs out. */
  ghost function DoFork(s: Sys, p: nat, c: nat): Next
    requires Shape(s.mem) && 1 <= c < NR_TASKS && p < NR_TASKS && (p != 0 ==> p in s.tasks && s.tasks[p].data <= SPACE)
  {
    var f := FreeFrame(s.mem);
    if f == 0 then Next(s, true)
    else
      var child := if p == 0 then Task(TASK0_LIMIT, TASK0_LIMIT, f, true) else s.tasks[p].(page := f);
      match CopyMem(Claim(s.mem, f), Block(p, 0), Block(c, 0), Blocks(child.data))
      case Panic => Crash
      case Done(m) => Next(Sys(m, s.held + {f}, s.tasks[c := child], s.start), false)
      case NoMemory(m) =>
        var r := FreePage(m, f);
        if r.Done? then Next(s.(mem := r.mem), true) else Crash
  }

  /** Both calls of free_page_tables made by do_exit and do_execve. */
  ghost function FreeSpace(m: Mem, t: nat, code: nat, data: nat): (r: Outcome)
    requires Shape(m) && 1 <= t < NR_TASKS && code <= SPACE && data <= SPACE
    ensures !r.Panic? ==> Shape(r.mem) && |r.mem.ram| == |m.ram|
  {
    var r1 := FreeTables(m, Block(t, 0), Blocks(code));
    if r1.Panic? then Panic else FreeTables(r1.mem, Block(t, 0), Blocks(data))
  }

  /** A store instruction: on a read-only page the fault handler runs first. */
  ghost function DoWrite(s: Sys, d: nat, i: nat, j: nat, v: Word): Next
    requires Shape(s.mem) && IsPage(d, i) && j < WORDS && DirPresent(s.mem, d)
  {
    var r := if Writable(s.mem, Pte(d, i)) then Done(s.mem) else UnWriteProtect(s.mem, d, i);
    if r.Panic? then Crash
    else if r.NoMemory? then Next(s, true)
    else if !DirPresent(r.mem, d) || !(LOW <= Entry(r.mem, d, i).frame < |r.mem.ram|) then Crash
    else Next(s.(mem := StoreWord(r.mem, d, i, j, v)), false)
  }

  ghost function Apply(s: Sys, e: Event): Next
    requires SysInv(s) && Enabled(s, e)
  {
    match e
    case Fork(p, c) => DoFork(s, p, c)
    case Exit(t) =>
      (match FreeSpace(s.mem, t, s.tasks[t].code, s.tasks[t].data)
       case Done(m) => Next(s.(mem := m, tasks := s.tasks[t := s.tasks[t].(alive := false)]), false)
       case NoMemory(_) => Crash
       case Panic => Crash)
    case Release(t) =>
      var r := FreePage(s.mem, s.tasks[t].page);
      if r.Done? then Next(Sys(r.mem, s.held - {s.tasks[t].page}, s.tasks - {t}, s.start), false) else Crash
    case Exec(t, code, data) =>
      (match FreeSpace(s.mem, t, s.tasks[t].code, s.tasks[t].data)
       case Done(m) => Next(s.(mem := m, tasks := s.tasks[t := s.tasks[t].(code := code, data := data)]), false)
       case NoMemory(_) => Crash
       case Panic => Crash)
    case TakePage =>
      var f := FreeFrame(s.mem);
      if f == 0 then Next(s, true) else Next(s.(mem := Claim(s.mem, f), held := s.held + {f}), false)
    case DropPage(f) =>
      var r := FreePage(s.mem, f);
      if r.Done? then Next(s.(mem := r.mem, held := s.held - {f}), false) else Crash
    case FillPage(f, contents) => Next(s.(mem := s.mem.(ram := s.mem.ram[f := contents])), false)
    case GivePage(f, t, k, i) =>
      (match PutPage(s.mem, f, Block(t, k), i)
       case Done(m) => Next(s.(mem := m, held := s.held - {f}), false)
       case NoMemory(_) => Next(s, true)
       case Panic => Crash)
    case Share(t, p, k, i) =>
      (match TryToShare(s.mem, Block(p, k), Block(t, k), i)
       case Shared(m, _) => Next(s.(mem := m), false)
       case ShareNoMemory => Next(s, true)
       case SharePanic => Crash)
    case Verify(t, k, i) =>
      var x := Pte(Block(t, k), i);
      if Target(s.mem, x) == -1 || Writable(s.mem, x) then Next(s, false)
      else (match UnWriteProtect(s.mem, x.d, x.i)
            case Done(m) => Next(s.(mem := m), false)
            case NoMemory(_) => Next(s, true)
            case Panic => Crash)
    case Write(t, k, i, j, v) => DoWrite(s, Block(t, k), i, j, v)
    case WriteLow(f, j, v) => Next(s.(mem := s.mem.(ram := s.mem.ram[f := s.mem.ram[f][j := v]])), false)
  }

  /** What the tables mean to the tasks. */
  ghost function Meaning(s: Sys): Spaces
    requires SysInv(s)
  {
    Spaces(
      map p: (nat, nat) | p in AllPages() :: ViewAt(s.mem, p.0, p.1),
      map f: nat | 0 < f < LOW :: s.mem.ram[f],
      map f: nat | f in s.held :: s.mem.ram[f],
      s.tasks)
  }

  ghost function AllPages(): (r: set<(nat, nat)>)
    ensures forall p :: p in r <==> IsPage(p.0, p.1)
  {
    set d: nat, i: nat | d < WORDS && i < WORDS && IsPage(d, i) :: (d, i)
  }

  // ---- How the parts of the meaning follow the memory ----

  lemma ViewStays(s: Sys, s': Sys)
    requires SysInv(s) && SysInv(s') && SameViews(s.mem, s'.mem)
    ensures Meaning(s').view == Meaning(s).view
  {
    hide SysInv, ViewAt, Shape;
    ShapeOf(s);
    ShapeOf(s');
  }

  lemma ShapeOf(s: Sys)
    requires SysInv(s)
    ensures Shape(s.mem)
  {
  }

  lemma ViewUpdated(s: Sys, s': Sys, d: nat, i: nat)
    requires SysInv(s) && SysInv(s') && SameViewsBut(s.mem, s'.mem, d, i) && IsPage(d, i)
    ensures Meaning(s').view == Meaning(s).view[(d, i) := ViewAt(s'.mem, d, i)]
  {
    hide SysInv, ViewAt, Shape;
    ShapeOf(s);
    ShapeOf(s');
    assert Meaning(s').view == Meaning(s).view[(d, i) := ViewAt(s'.mem, d, i)];
  }

  lemma LowStays(s: Sys, s': Sys)
    requires SysInv(s) && SysInv(s') && SameLow(s.mem, s'.mem)
    ensures Meaning(s').low == Meaning(s).low
  {
    assert Shape(s.mem) && Shape(s'.mem) && LOW < |s.mem.ram|;
    hide SysInv, ViewAt, Shape;
    assert Meaning(s').low == Meaning(s).low;
  }

  /** Page f is held now; every page held before is as it was. */
  lemma PageHeld(s: Sys, s': Sys, f: nat)
    requires SysInv(s) && SysInv(s') && |s'.mem.ram| == |s.mem.ram| && s'.held == s.held + {f}
    requires forall g :: g in s.held && g != f ==> s'.mem.ram[g] == s.mem.ram[g]
    ensures f < |s'.mem.ram| && Meaning(s').pages == Meaning(s).pages[f := s'.mem.ram[f]]
  {
    hide SysInv, ViewAt, Shape;
    HeldThere(s');
    assert Meaning(s').pages == Meaning(s).pages[f := s'.mem.ram[f]];
  }

  lemma HeldThere(s: Sys)
    requires SysInv(s)
    ensures forall g :: g in s.held ==> g < |s.mem.ram|
  {
  }

  /** Page f is held no more. */
  lemma PageGone(s: Sys, s': Sys, f: nat)
    requires SysInv(s) && SysInv(s') && |s'.mem.ram| == |s.mem.ram| && s'.held == s.held - {f}
    requires forall g :: g in s.held && g != f ==> s'.mem.ram[g] == s.mem.ram[g]
    ensures Meaning(s').pages == Meaning(s).pages - {f}
  {
    hide SysInv, ViewAt, Shape;
    HeldThere(s);
    assert Meaning(s').pages == Meaning(s).pages - {f};
  }

  lemma PagesStay(s: Sys, s': Sys)
    requires SysInv(s) && SysInv(s') && |s'.mem.ram| == |s.mem.ram| && s'.held == s.held
    requires forall g :: g in s.held ==> s'.mem.ram[g] == s.mem.ram[g]
    ensures Meaning(s').pages == Meaning(s).pages
  {
    hide SysInv, ViewAt, Shape;
    HeldThere(s);
    assert Meaning(s').pages == Meaning(s).pages;
  }

  lemma MeaningTasks(s: Sys)
    requires SysInv(s)
    ensures Meaning(s).tasks == s.tasks && Meaning(s).pages.Keys == s.held
    ensures forall f :: f in s.held ==> f < |s.mem.ram| && Meaning(s).pages[f] == s.mem.ram[f]
  {
  }

  // ---- Events on one page ----

  /** After a change confined to page (d, i) the system is sound and means the same elsewhere. */
  lemma OnePage(s: Sys, m: Mem, d: nat, i: nat)
    requires SysInv(s) && IsPage(d, i) && Inv(m, s.held, s.start)
    requires SameLow(s.mem, m) && SameHeld(s.mem, m, s.held) && SameViewsBut(s.mem, m, d, i)
    requires forall e: nat :: IsUserDir(e) && DirPresent(m, e) && !DirPresent(s.mem, e) ==> e == d
    requires Living(s, d / DIRS_PER_TASK) && d % DIRS_PER_TASK < Blocks(s.tasks[d / DIRS_PER_TASK].data)
    ensures SysInv(s.(mem := m))
    ensures Meaning(s.(mem := m)) == Meaning(s).(view := Meaning(s).view[(d, i) := ViewAt(m, d, i)])
  {
    var s' := s.(mem := m);
    OnePageSound(s, m, d, i);
    hide SysInv, ViewAt;
    ViewUpdated(s, s', d, i);
    LowStays(s, s');
    PagesStay(s, s');
  }

  lemma OnePageSound(s: Sys, m: Mem, d: nat, i: nat)
    requires SysInv(s) && IsPage(d, i) && Inv(m, s.held, s.start)
    requires forall e: nat :: IsUserDir(e) && DirPresent(m, e) && !DirPresent(s.mem, e) ==> e == d
    requires Living(s, d / DIRS_PER_TASK) && d % DIRS_PER_TASK < Blocks(s.tasks[d / DIRS_PER_TASK].data)
    ensures SysInv(s.(mem := m)) && |m.ram| > LOW
  {
    var s' := s.(mem := m);
    forall t | t in s'.tasks ensures GoodTask(s', t) { assert GoodTask(s, t); }
    assert TablesInside(s);
    hide Inv;
  }

  lemma BlockIsInside(s: Sys, t: nat, k: nat, i: nat)
    requires SysInv(s) && Inside(s, t, k, i)
    ensures IsPage(Block(t, k), i) && Block(t, k) / DIRS_PER_TASK == t && Block(t, k) % DIRS_PER_TASK == k
    ensures (Block(t, k), i) in Meaning(s).view
  {
    assert GoodTask(s, t);
  }

  /** un_wp_page never creates a table. */
  lemma UnWriteProtectDirs(m: Mem, held: set<nat>, start: nat, d: nat, i: nat)
    requires Inv(m, held, start) && IsPage(d, i) && Target(m, Pte(d, i)) >= 0
    ensures var r := UnWriteProtect(m, d, i);
            !r.Panic? && Shape(r.mem) && forall e: nat :: IsUserDir(e) ==> DirPresent(r.mem, e) == DirPresent(m, e)
  {
    UnWriteProtectInv(m, held, start, d, i);
    assert GoodTarget(m, held, start, Dir(d));
  }

  /** Copying the page an entry maps is what MadePrivate allows. */
  lemma PrivateCopy(s: Sys, d: nat, i: nat)
    requires SysInv(s) && IsPage(d, i) && Target(s.mem, Pte(d, i)) >= 0
    ensures Target(s.mem, Pte(d, i)) < |s.mem.ram|
    ensures MadePrivate(Meaning(s), (d, i), s.mem.ram[Target(s.mem, Pte(d, i))])
    ensures |s.mem.ram[Target(s.mem, Pte(d, i))]| == WORDS
  {
    assert GoodTarget(s.mem, s.held, s.start, Pte(d, i));
  }

  /** What an address of a living task's segment gives the lemmas below. */
  ghost predicate Addressed(s: Sys, d: nat, i: nat) {
    IsPage(d, i) && Living(s, d / DIRS_PER_TASK) && d % DIRS_PER_TASK < Blocks(s.tasks[d / DIRS_PER_TASK].data)
  }

  /** The page fault handler: afterwards the task owns a writable copy of what it saw. */
  lemma UnprotectStep(s: Sys, d: nat, i: nat) returns (s': Sys)
    requires SysInv(s) && Addressed(s, d, i) && Target(s.mem, Pte(d, i)) >= 0
    ensures Target(s.mem, Pte(d, i)) < |s.mem.ram|
    ensures if FreeFrame(s.mem) == 0 && UnWriteProtect(s.mem, d, i).NoMemory? then s' == s
              else UnWriteProtect(s.mem, d, i) == Done(s'.mem)
    ensures SysInv(s') && Shape(s'.mem) && s' == s.(mem := s'.mem)
    ensures UnWriteProtect(s.mem, d, i).Done? ==>
              && DirPresent(s.mem, d) && Entry(s.mem, d, i).frame == Target(s.mem, Pte(d, i))
              && Meaning(s') == Meaning(s).(view := Meaning(s).view[(d, i) := Unshared(s.mem, d, i)])
              && Writable(s'.mem, Pte(d, i))
  {
    UnWriteProtectInv(s.mem, s.held, s.start, d, i);
    UnWriteProtectDirs(s.mem, s.held, s.start, d, i);
    var r := UnWriteProtect(s.mem, d, i);
    s' := s.(mem := r.mem);
    if r.Done? { OnePage(s, r.mem, d, i); }
  }

  lemma StoreStep(s: Sys, d: nat, i: nat, j: nat, v: Word) returns (s': Sys)
    requires SysInv(s) && Addressed(s, d, i) && j < WORDS && Writable(s.mem, Pte(d, i))
    ensures LOW <= Entry(s.mem, d, i).frame < |s.mem.ram| && ViewAt(s.mem, d, i).Private?
    ensures |ViewAt(s.mem, d, i).page| == WORDS
    ensures s' == s.(mem := StoreWord(s.mem, d, i, j, v)) && SysInv(s')
    ensures var page := ViewAt(s.mem, d, i).page[j := v];
            Meaning(s') == Meaning(s).(view := Meaning(s).view[(d, i) := Private(page, false)])
  {
    StoreInv(s.mem, s.held, s.start, d, i, j, v);
    s' := s.(mem := StoreWord(s.mem, d, i, j, v));
    forall e: nat | IsUserDir(e) && DirPresent(s'.mem, e) ensures DirPresent(s.mem, e) {
      assert GoodTarget(s.mem, s.held, s.start, Dir(d));
    }
    OnePage(s, s'.mem, d, i);
  }

  lemma VerifyStep(s: Sys, t: nat, k: nat, i: nat)
    requires SysInv(s) && Inside(s, t, k, i)
    ensures var e := Verify(t, k, i);
            var r := Apply(s, e);
            && r.Next? && SysInv(r.sys) && EagerStep(Meaning(s), e, Meaning(r.sys), r.full)
            && (r.full ==> FreeFrame(s.mem) == 0)
  {
    hide SysInv, UnWriteProtect, Unshared, Meaning, ViewAt, MadePrivate;
    BlockIsInside(s, t, k, i);
    ShapeOf(s);
    var x := Pte(Block(t, k), i);
    if Target(s.mem, x) != -1 && !Writable(s.mem, x) {
      var s' := UnprotectStep(s, x.d, i);
      PrivateCopy(s, x.d, i);
      assert s.(mem := s'.mem) == s';
      if UnWriteProtect(s.mem, x.d, i).Done? { EagerVerify(s, s', x.d, i); }
    }
  }

  /** The page is kept as it is, or copied. */
  lemma EagerVerify(s: Sys, s': Sys, d: nat, i: nat)
    requires SysInv(s) && SysInv(s') && IsPage(d, i) && Shape(s.mem) && DirPresent(s.mem, d)
    requires Target(s.mem, Pte(d, i)) == Entry(s.mem, d, i).frame < |s.mem.ram|
    requires MadePrivate(Meaning(s), (d, i), s.mem.ram[Entry(s.mem, d, i).frame])
    requires Meaning(s') == Meaning(s).(view := Meaning(s).view[(d, i) := Unshared(s.mem, d, i)])
    ensures || Meaning(s') == Meaning(s)
            || exists page :: && MadePrivate(Meaning(s), (d, i), page)
                              && Meaning(s') == Meaning(s).(view := Meaning(s).view[(d, i) := Private(page, true)])
  {
    hide SysInv, Meaning, MadePrivate;
    MeaningAt(s, d, i);
    var f := Entry(s.mem, d, i).frame;
    if f >= LOW && s.mem.cnt[f - LOW] == 1 {
      assert Meaning(s).view[(d, i) := ViewAt(s.mem, d, i)] == Meaning(s).view;
    }
  }

  /** The three ways a store instruction can go. */
  lemma DoWriteCases(s: Sys, d: nat, i: nat, j: nat, v: Word)
    requires SysInv(s) && IsPage(d, i) && j < WORDS && DirPresent(s.mem, d)
    ensures Writable(s.mem, Pte(d, i)) && LOW <= Entry(s.mem, d, i).frame < |s.mem.ram|
            ==> DoWrite(s, d, i, j, v) == Next(s.(mem := StoreWord(s.mem, d, i, j, v)), false)
    ensures !Writable(s.mem, Pte(d, i)) && UnWriteProtect(s.mem, d, i).NoMemory? ==>
              DoWrite(s, d, i, j, v) == Next(s, true)
    ensures !Writable(s.mem, Pte(d, i)) && UnWriteProtect(s.mem, d, i).Done? ==>
              var m := UnWriteProtect(s.mem, d, i).mem;
              DirPresent(m, d) && LOW <= Entry(m, d, i).frame < |m.ram|
              ==> DoWrite(s, d, i, j, v) == Next(s.(mem := StoreWord(m, d, i, j, v)), false)
  {
    hide UnWriteProtect, StoreWord;
  }

  lemma Overwrite(a: Spaces, a1: Spaces, a2: Spaces, p: (nat, nat), x: View, y: View)
    requires a1 == a.(view := a.view[p := x]) && a2 == a1.(view := a1.view[p := y])
    ensures a2 == a.(view := a.view[p := y])
  {
    assert a.view[p := x][p := y] == a.view[p := y];
  }

  /** What a page of the system means is what its entry shows. */
  lemma MeaningAt(s: Sys, d: nat, i: nat)
    requires SysInv(s) && IsPage(d, i)
    ensures (d, i) in Meaning(s).view && Meaning(s).view[(d, i)] == ViewAt(s.mem, d, i)
  {
    assert (d, i) in AllPages();
  }

  /** Fault, then store. */
  lemma FaultAndStore(s: Sys, d: nat, i: nat, j: nat, v: Word, page: seq<Word>) returns (s': Sys)
    requires SysInv(s) && Addressed(s, d, i) && j < WORDS && 0 <= Target(s.mem, Pte(d, i)) < |s.mem.ram|
    requires page == s.mem.ram[Target(s.mem, Pte(d, i))] && |page| == WORDS
    requires !Writable(s.mem, Pte(d, i)) && UnWriteProtect(s.mem, d, i).Done?
    ensures DoWrite(s, d, i, j, v) == Next(s', false) && SysInv(s')
    ensures Meaning(s') == Meaning(s).(view := Meaning(s).view[(d, i) := Private(page[j := v], false)])
  {
    hide StoreWord, DoWrite, UnWriteProtect, SysInv, Meaning;
    ShapeOf(s);
    var s1 := UnprotectStep(s, d, i);
    MeaningAt(s1, d, i);
    s' := StoreStep(s1, d, i, j, v);
    DoWriteCases(s, d, i, j, v);
    Overwrite(Meaning(s), Meaning(s1), Meaning(s'), (d, i), Unshared(s.mem, d, i), Private(page[j := v], false));
  }

  lemma DoWriteStep(s: Sys, d: nat, i: nat, j: nat, v: Word) returns (r: Next)
    requires SysInv(s) && Addressed(s, d, i) && j < WORDS && Target(s.mem, Pte(d, i)) >= 0
    ensures Target(s.mem, Pte(d, i)) < |s.mem.ram| && |s.mem.ram[Target(s.mem, Pte(d, i))]| == WORDS
    ensures r == DoWrite(s, d, i, j, v) && r.Next? && SysInv(r.sys)
    ensures r.full ==> r.sys == s && FreeFrame(s.mem) == 0
    ensures !r.full ==>
              var page := s.mem.ram[Target(s.mem, Pte(d, i))];
              Meaning(r.sys) == Meaning(s).(view := Meaning(s).view[(d, i) := Private(page[j := v], false)])
  {
    hide UnWriteProtect, StoreWord, DoWrite;
    PrivateCopy(s, d, i);
    DoWriteCases(s, d, i, j, v);
    if Writable(s.mem, Pte(d, i)) {
      var s' := StoreStep(s, d, i, j, v);
      r := Next(s', false);
    } else {
      var s1 := UnprotectStep(s, d, i);
      if UnWriteProtect(s.mem, d, i).Done? {
        var s' := FaultAndStore(s, d, i, j, v, s.mem.ram[Target(s.mem, Pte(d, i))]);
        r := Next(s', false);
      } else {
        r := Next(s, true);
      }
    }
  }

  lemma WriteStep(s: Sys, t: nat, k: nat, i: nat, j: nat, v: Word)
    requires SysInv(s) && Enabled(s, Write(t, k, i, j, v))
    ensures var e := Write(t, k, i, j, v);
            var r := Apply(s, e);
            && r.Next? && SysInv(r.sys) && EagerStep(Meaning(s), e, Meaning(r.sys), r.full)
            && (r.full ==> FreeFrame(s.mem) == 0)
  {
    hide DoWrite, SysInv;
    BlockIsInside(s, t, k, i);
    PrivateCopy(s, Block(t, k), i);
    var r := DoWriteStep(s, Block(t, k), i, j, v);
  }

  // ---- Pages coming and going ----

  /** After a change no task can see, with `held` (and the zombies) changed along. */
  lemma NoPage(s: Sys, m: Mem, held: set<nat>, tasks: map<nat, Task>)
    requires SysInv(s) && Inv(m, held, s.start) && SameViews(s.mem, m)
    requires forall e: nat :: IsUserDir(e) ==> Target(m, Dir(e)) == Target(s.mem, Dir(e))
    requires tasks.Keys <= s.tasks.Keys && forall t :: t in tasks ==> tasks[t] == s.tasks[t] && tasks[t].page in held
    requires forall t :: t in s.tasks && t !in tasks ==> !s.tasks[t].alive
    ensures SysInv(Sys(m, held, tasks, s.start))
    ensures Meaning(Sys(m, held, tasks, s.start)).view == Meaning(s).view
  {
    var s' := Sys(m, held, tasks, s.start);
    forall t | t in tasks ensures GoodTask(s', t) { assert GoodTask(s, t); }
    TablesStay(s, s');
    ViewStays(s, s');
  }

  lemma TablesStay(s: Sys, s': Sys)
    requires SysInv(s) && Shape(s'.mem)
    requires forall e: nat :: IsUserDir(e) ==> Target(s'.mem, Dir(e)) == Target(s.mem, Dir(e))
    requires s'.tasks.Keys <= s.tasks.Keys && forall t :: t in s'.tasks ==> s'.tasks[t] == s.tasks[t]
    requires forall t :: t in s.tasks && t !in s'.tasks ==> !s.tasks[t].alive
    ensures TablesInside(s')
  {
    forall e: nat | IsUserDir(e) && DirPresent(s'.mem, e)
      ensures var t := e / DIRS_PER_TASK;
              t in s'.tasks && s'.tasks[t].alive && e % DIRS_PER_TASK < Blocks(s'.tasks[t].data)
    {
      assert Target(s'.mem, Dir(e)) == Target(s.mem, Dir(e)) != -1;
      assert DirPresent(s.mem, e);
    }
  }

  lemma TakenPage(s: Sys, f: nat) returns (s': Sys)
    requires SysInv(s) && f == FreeFrame(s.mem) && f != 0
    ensures s' == s.(mem := Claim(s.mem, f), held := s.held + {f}) && f !in s.held && SysInv(s')
    ensures Meaning(s') == Meaning(s).(pages := Meaning(s).pages[f := ZeroPage()])
  {
    ClaimInv(s.mem, s.held, s.start);
    forall t | t in s.tasks ensures s.tasks[t].page in s.held { assert GoodTask(s, t); }
    s' := s.(mem := Claim(s.mem, f), held := s.held + {f});
    NoPage(s, s'.mem, s'.held, s.tasks);
    hide SysInv, ViewAt;
    LowStays(s, s');
    PageHeld(s, s', f);
  }

  lemma TakePageStep(s: Sys)
    requires SysInv(s)
    ensures var r := Apply(s, TakePage);
            && r.Next? && SysInv(r.sys) && EagerStep(Meaning(s), TakePage, Meaning(r.sys), r.full)
            && (r.full ==> FreeFrame(s.mem) == 0)
  {
    var f := FreeFrame(s.mem);
    if f != 0 {
      var s' := TakenPage(s, f);
      hide SysInv;
      assert AddsPage(Meaning(s).pages, Meaning(s').pages, f);
    }
  }

  lemma DropPageStep(s: Sys, f: nat)
    requires SysInv(s) && Spare(s, f)
    ensures var e := DropPage(f);
            var r := Apply(s, e);
            r.Next? && !r.full && SysInv(r.sys) && EagerStep(Meaning(s), e, Meaning(r.sys), r.full)
  {
    ReleaseInv(s.mem, s.held, s.start, f);
    var m := FreePage(s.mem, f).mem;
    forall t | t in s.tasks ensures s.tasks[t].page in s.held - {f} { assert GoodTask(s, t); }
    NoPage(s, m, s.held - {f}, s.tasks);
    var s' := s.(mem := m, held := s.held - {f});
    assert s' == Sys(m, s.held - {f}, s.tasks, s.start);
    hide SysInv, ViewAt, Inv;
    LowStays(s, s');
    PageGone(s, s', f);
  }

  lemma ReleaseStep(s: Sys, t: nat)
    requires SysInv(s) && t in s.tasks && !s.tasks[t].alive
    ensures var e := Release(t);
            var r := Apply(s, e);
            r.Next? && !r.full && SysInv(r.sys) && EagerStep(Meaning(s), e, Meaning(r.sys), r.full)
  {
    assert GoodTask(s, t);
    var f := s.tasks[t].page;
    ReleaseInv(s.mem, s.held, s.start, f);
    var m := FreePage(s.mem, f).mem;
    forall u | u in s.tasks - {t} ensures s.tasks[u].page in s.held - {f} { assert GoodTask(s, u); }
    NoPage(s, m, s.held - {f}, s.tasks - {t});
    var s' := Sys(m, s.held - {f}, s.tasks - {t}, s.start);
    hide SysInv, ViewAt, Inv;
    LowStays(s, s');
    PageGone(s, s', f);
  }

  lemma FilledPage(s: Sys, f: nat, contents: seq<Word>) returns (s': Sys)
    requires SysInv(s) && Spare(s, f) && |contents| == WORDS
    ensures s' == s.(mem := s.mem.(ram := s.mem.ram[f := contents])) && SysInv(s')
    ensures Meaning(s') == Meaning(s).(pages := Meaning(s).pages[f := contents])
  {
    s' := s.(mem := s.mem.(ram := s.mem.ram[f := contents]));
    forall x | IsSlot(x) ensures Target(s.mem, x) != f { assert GoodTarget(s.mem, s.held, s.start, x); }
    DataInv(s.mem, s'.mem, s.held, s.start, f);
    forall t | t in s.tasks ensures s.tasks[t].page in s.held { assert GoodTask(s, t); }
    NoPage(s, s'.mem, s.held, s.tasks);
    assert s' == Sys(s'.mem, s.held, s.tasks, s.start);
    hide SysInv, ViewAt, Inv;
    LowStays(s, s');
    assert s'.held == s.held + {f};
    PageHeld(s, s', f);
  }

  lemma FillPageStep(s: Sys, f: nat, contents: seq<Word>)
    requires SysInv(s) && Spare(s, f) && |contents| == WORDS
    ensures var e := FillPage(f, contents);
            var r := Apply(s, e);
            r.Next? && !r.full && SysInv(r.sys) && EagerStep(Meaning(s), e, Meaning(r.sys), r.full)
  {
    var s' := FilledPage(s, f, contents);
  }

  lemma WriteLowStep(s: Sys, f: nat, j: nat, v: Word)
    requires SysInv(s) && 5 <= f < LOW && j < WORDS
    ensures var e := WriteLow(f, j, v);
            var r := Apply(s, e);
            r.Next? && !r.full && SysInv(r.sys) && EagerStep(Meaning(s), e, Meaning(r.sys), r.full)
  {
    var s' := Apply(s, WriteLow(f, j, v)).sys;
    LowPageInv(s.mem, s'.mem, s.held, s.start, f);
    forall t | t in s.tasks ensures s.tasks[t].page in s.held { assert GoodTask(s, t); }
    NoPage(s, s'.mem, s.held, s.tasks);
    assert s' == Sys(s'.mem, s.held, s.tasks, s.start);
    assert forall g :: g in s.held ==> g >= LOW;
    hide SysInv, ViewAt, Inv;
    assert Meaning(s').low == Meaning(s).low[f := s.mem.ram[f][j := v]];
    PagesStay(s, s');
  }

  lemma GivePageStep(s: Sys, f: nat, t: nat, k: nat, i: nat)
    requires SysInv(s) && Enabled(s, GivePage(f, t, k, i))
    ensures var e := GivePage(f, t, k, i);
            var r := Apply(s, e);
            && r.Next? && SysInv(r.sys) && EagerStep(Meaning(s), e, Meaning(r.sys), r.full)
            && (r.full ==> FreeFrame(s.mem) == 0)
  {
    hide PutPage;
    BlockIsInside(s, t, k, i);
    var d := Block(t, k);
    UnmappedTarget(s, d, i);
    PutPageInv(s.mem, s.held, s.start, f, d, i);
    var r := PutPage(s.mem, f, d, i);
    if r.Done? {
      PutPageDirs(s.mem, s.held, s.start, f, d, i);
      HandedOver(s, r.mem, f, d, i);
    }
  }

  /** put_page creates at most the table it needs. */
  lemma PutPageDirs(m: Mem, held: set<nat>, start: nat, f: nat, d: nat, i: nat)
    requires Inv(m, held, start) && IsPage(d, i)
    ensures var r := PutPage(m, f, d, i);
            r.Done? ==> Shape(r.mem) && forall e: nat :: IsUserDir(e) && DirPresent(r.mem, e) && !DirPresent(m, e) ==>
                e == d
  {
    if DirPresent(m, d) { assert GoodTarget(m, held, start, Dir(d)); }
  }

  lemma HandedOver(s: Sys, m: Mem, f: nat, d: nat, i: nat)
    requires SysInv(s) && Spare(s, f) && Addressed(s, d, i) && Inv(m, s.held - {f}, s.start)
    requires SameLow(s.mem, m) && SameHeld(s.mem, m, s.held) && SameViewsBut(s.mem, m, d, i)
    requires ViewAt(m, d, i) == Private(s.mem.ram[f], true)
    requires forall e: nat :: IsUserDir(e) && DirPresent(m, e) && !DirPresent(s.mem, e) ==> e == d
    ensures var s' := s.(mem := m, held := s.held - {f});
            && SysInv(s')
            && Meaning(s') == Meaning(s).(pages := Meaning(s).pages - {f},
                                            view := Meaning(s).view[(d, i) := Private(Meaning(s).pages[f], true)])
  {
    var s' := s.(mem := m, held := s.held - {f});
    HandedOverSound(s, m, f, d, i);
    hide SysInv, ViewAt, Inv;
    MeaningTasks(s);
    ViewUpdated(s, s', d, i);
    LowStays(s, s');
    PageGone(s, s', f);
  }

  lemma HandedOverSound(s: Sys, m: Mem, f: nat, d: nat, i: nat)
    requires SysInv(s) && Spare(s, f) && Addressed(s, d, i) && Inv(m, s.held - {f}, s.start)
    requires forall e: nat :: IsUserDir(e) && DirPresent(m, e) && !DirPresent(s.mem, e) ==> e == d
    ensures f < |s.mem.ram| && SysInv(s.(mem := m, held := s.held - {f}))
  {
    var s' := s.(mem := m, held := s.held - {f});
    forall u | u in s.tasks ensures GoodTask(s', u) { assert GoodTask(s, u); }
  }

  lemma UnmappedTarget(s: Sys, d: nat, i: nat)
    requires SysInv(s) && IsPage(d, i) && ViewAt(s.mem, d, i) == Unmapped
    ensures Target(s.mem, Pte(d, i)) == -1
  {
    assert GoodTarget(s.mem, s.held, s.start, Pte(d, i));
  }

  lemma ShareStep(s: Sys, t: nat, p: nat, k: nat, i: nat)
    requires SysInv(s) && Enabled(s, Share(t, p, k, i))
    ensures var e := Share(t, p, k, i);
            var r := Apply(s, e);
            && r.Next? && SysInv(r.sys) && EagerStep(Meaning(s), e, Meaning(r.sys), r.full)
            && (r.full ==> FreeFrame(s.mem) == 0)
  {
    BlockIsInside(s, t, k, i);
    UnmappedTarget(s, Block(t, k), i);
    var fd, td := Block(p, k), Block(t, k);
    TryToShareInv(s.mem, s.held, s.start, fd, td, i);
    MeaningAt(s, fd, i);
    var r := TryToShare(s.mem, fd, td, i);
    hide TryToShare, Inv;
    if r.Shared? && r.ok {
      ShareDirs(s.mem, s.held, s.start, fd, td, i);
      OnePage(s, r.mem, td, i);
    }
  }

  lemma ShareDirs(m: Mem, held: set<nat>, start: nat, fd: nat, td: nat, i: nat)
    requires Inv(m, held, start) && IsPage(fd, i) && IsPage(td, i)
    ensures var r := TryToShare(m, fd, td, i);
            r.Shared? ==>
              Shape(r.mem) && forall e: nat :: IsUserDir(e) && DirPresent(r.mem, e) && !DirPresent(m, e) ==> e == td
  {
    if DirPresent(m, fd) { assert GoodTarget(m, held, start, Dir(fd)); }
    if DirPresent(m, td) { assert GoodTarget(m, held, start, Dir(td)); }
  }

  // ---- exit, exec and fork ----

  lemma BlocksBound(size: nat)
    requires size <= SPACE
    ensures Blocks(size) <= DIRS_PER_TASK
    ensures size > 0 ==> Blocks(size) > 0
  {
  }

  lemma BlocksMonotone(a: nat, b: nat)
    requires a <= b
    ensures Blocks(a) <= Blocks(b)
  {
  }

  /** free_page_tables over both segments leaves the task nothing, and everybody else everything. */
  lemma FreeSpaceInv(s: Sys, t: nat) returns (m: Mem)
    requires SysInv(s) && Living(s, t)
    ensures 1 <= t < NR_TASKS && s.tasks[t].code <= SPACE && s.tasks[t].data <= SPACE
    ensures FreeSpace(s.mem, t, s.tasks[t].code, s.tasks[t].data) == Done(m)
    ensures Inv(m, s.held, s.start) && SameLow(s.mem, m) && SameHeld(s.mem, m, s.held)
    ensures SameOutside(s.mem, m, Block(t, 0), DIRS_PER_TASK) && NoTables(m, Block(t, 0), DIRS_PER_TASK)
  {
    assert GoodTask(s, t);
    var first, n1, n2 := Block(t, 0), Blocks(s.tasks[t].code), Blocks(s.tasks[t].data);
    BlocksBound(s.tasks[t].code);
    BlocksBound(s.tasks[t].data);
    BlocksMonotone(s.tasks[t].code, s.tasks[t].data);
    var m1 := FreeTablesInv(s.mem, s.held, s.start, first, n1);
    m := FreeTablesInv(m1, s.held, s.start, first, n2);
    hide FreeTables, Inv;
    OutsideTwice(s.mem, m1, m, first, n1, n2);
    forall d: nat | IsUserDir(d) && Within(d, first, DIRS_PER_TASK) ensures !DirPresent(m, d) {
      if !Within(d, first, n2) {
        assert !DirPresent(s.mem, d);
        assert !Within(Dir(d).d, first, n2);
        assert Target(m, Dir(d)) == Target(s.mem, Dir(d)) == -1;
      }
    }
  }

  lemma OutsideTwice(m: Mem, m1: Mem, m2: Mem, first: nat, n1: nat, n2: nat)
    requires Shape(m) && Shape(m1) && Shape(m2) && n1 <= n2 <= DIRS_PER_TASK
    requires SameOutside(m, m1, first, n1) && SameOutside(m1, m2, first, n2)
    ensures SameOutside(m, m2, first, n2) && SameOutside(m, m2, first, DIRS_PER_TASK)
  {
    forall d: nat, i: nat | IsUserDir(d) && i < WORDS && !Within(d, first, n2)
      ensures ViewAt(m2, d, i) == ViewAt(m, d, i)
    {
      assert !Within(d, first, n1);
    }
    forall x | IsSlot(x) && !Within(x.d, first, n2) ensures Target(m2, x) == Target(m, x) {
      assert !Within(x.d, first, n1);
    }
    forall d: nat, i: nat | IsUserDir(d) && i < WORDS && !Within(d, first, DIRS_PER_TASK)
      ensures ViewAt(m2, d, i) == ViewAt(m, d, i)
    {
      assert !Within(d, first, n2);
    }
    forall x | IsSlot(x) && !Within(x.d, first, DIRS_PER_TASK) ensures Target(m2, x) == Target(m, x) {
      assert !Within(x.d, first, n2);
    }
  }

  /** A task whose tables are gone may become a zombie or get new limits. */
  lemma Emptying(s: Sys, m: Mem, t: nat, task: Task)
    requires SysInv(s) && Living(s, t) && 1 <= t < NR_TASKS && Inv(m, s.held, s.start) && SameLow(s.mem, m)
    requires SameHeld(s.mem, m, s.held)
    requires SameOutside(s.mem, m, Block(t, 0), DIRS_PER_TASK) && NoTables(m, Block(t, 0), DIRS_PER_TASK)
    requires task.page == s.tasks[t].page && 0 < task.data <= SPACE && task.code <= task.data
    ensures var s' := s.(mem := m, tasks := s.tasks[t := task]);
            && SysInv(s')
            && Meaning(s') == Meaning(s).(view := Emptied(Meaning(s).view, t), tasks := s.tasks[t := task])
  {
    var s' := s.(mem := m, tasks := s.tasks[t := task]);
    EmptyingSound(s, m, t, task);
    EmptyingView(s, m, t, task);
    hide SysInv, ViewAt, Inv;
    LowStays(s, s');
    PagesStay(s, s');
  }

  lemma EmptyingSound(s: Sys, m: Mem, t: nat, task: Task)
    requires SysInv(s) && Living(s, t) && 1 <= t < NR_TASKS && Inv(m, s.held, s.start)
    requires SameOutside(s.mem, m, Block(t, 0), DIRS_PER_TASK) && NoTables(m, Block(t, 0), DIRS_PER_TASK)
    requires task.page == s.tasks[t].page && 0 < task.data <= SPACE && task.code <= task.data
    ensures SysInv(s.(mem := m, tasks := s.tasks[t := task]))
  {
    hide Inv, ViewAt;
    ShapeOf(s);
    ShapeOfInv(m, s.held, s.start);
    var s' := s.(mem := m, tasks := s.tasks[t := task]);
    forall u | u in s'.tasks ensures GoodTask(s', u) { assert GoodTask(s, u); assert GoodTask(s, t); }
    forall d: nat | IsUserDir(d) && DirPresent(m, d)
      ensures var u := d / DIRS_PER_TASK;
              u in s'.tasks && s'.tasks[u].alive && d % DIRS_PER_TASK < Blocks(s'.tasks[u].data)
    {
      assert !Within(d, Block(t, 0), DIRS_PER_TASK);
      assert !Within(Dir(d).d, Block(t, 0), DIRS_PER_TASK);
      assert Target(m, Dir(d)) == Target(s.mem, Dir(d));
      assert Target(m, Dir(d)) != -1 by { assert Shape(m); }
      assert DirPresent(s.mem, d);
    }
  }

  lemma EmptyingView(s: Sys, m: Mem, t: nat, task: Task)
    requires SysInv(s) && Living(s, t) && 1 <= t < NR_TASKS && Shape(m)
    requires SysInv(s.(mem := m, tasks := s.tasks[t := task]))
    requires SameOutside(s.mem, m, Block(t, 0), DIRS_PER_TASK) && NoTables(m, Block(t, 0), DIRS_PER_TASK)
    ensures Meaning(s.(mem := m, tasks := s.tasks[t := task])).view == Emptied(Meaning(s).view, t)
  {
    hide SysInv, Shape, SameOutside, NoTables, ViewAt, Meaning;
    var s' := s.(mem := m, tasks := s.tasks[t := task]);
    ShapeOf(s);
    var a, b := Meaning(s').view, Emptied(Meaning(s).view, t);
    MeaningKeys(s);
    MeaningKeys(s');
    forall p | p in a ensures p in b && a[p] == b[p] {
      MeaningAt(s, p.0, p.1);
      MeaningAt(s', p.0, p.1);
      EmptiedAt(s.mem, m, t, p.0, p.1);
    }
    assert a.Keys == b.Keys;
  }

  lemma EmptiedAt(m: Mem, m': Mem, t: nat, d: nat, i: nat)
    requires Shape(m) && Shape(m') && IsPage(d, i) && 1 <= t < NR_TASKS
    requires SameOutside(m, m', Block(t, 0), DIRS_PER_TASK) && NoTables(m', Block(t, 0), DIRS_PER_TASK)
    ensures ViewAt(m', d, i) == if d / DIRS_PER_TASK == t then Unmapped else ViewAt(m, d, i)
  {
    if d / DIRS_PER_TASK == t { assert Within(d, Block(t, 0), DIRS_PER_TASK); }
    else { assert !Within(d, Block(t, 0), DIRS_PER_TASK); }
  }

  lemma ExitStep(s: Sys, t: nat)
    requires SysInv(s) && Living(s, t)
    ensures var r := Apply(s, Exit(t));
            r.Next? && !r.full && SysInv(r.sys) && EagerStep(Meaning(s), Exit(t), Meaning(r.sys), r.full)
  {
    hide FreeSpace, SysInv, Inv, Meaning, Shape, SameOutside, NoTables, SameLow, SameHeld;
    TaskGood(s, t);
    var m := FreeSpaceInv(s, t);
    MeaningTasks(s);
    Emptying(s, m, t, s.tasks[t].(alive := false));
  }

  lemma ExecStep(s: Sys, t: nat, code: nat, data: nat)
    requires SysInv(s) && Living(s, t) && 0 < data <= SPACE && code <= data
    ensures var e := Exec(t, code, data);
            var r := Apply(s, e);
            r.Next? && !r.full && SysInv(r.sys) && EagerStep(Meaning(s), e, Meaning(r.sys), r.full)
  {
    hide FreeSpace, SysInv, Inv, Meaning, Shape, SameOutside, NoTables, SameLow, SameHeld;
    TaskGood(s, t);
    var m := FreeSpaceInv(s, t);
    MeaningTasks(s);
    Emptying(s, m, t, s.tasks[t].(code := code, data := data));
  }

  lemma TaskGood(s: Sys, t: nat)
    requires SysInv(s) && t in s.tasks
    ensures GoodTask(s, t) && Shape(s.mem)
  {
  }

  /** The page for the task structure, then the tables: on success the child sees what the parent sees. */
  lemma NoChildTables(s: Sys, m0: Mem, c: nat, n: nat)
    requires SysInv(s) && 1 <= c < NR_TASKS && c !in s.tasks && n <= DIRS_PER_TASK && Shape(m0)
    requires forall x :: IsSlot(x) ==> Target(m0, x) == Target(s.mem, x)
    ensures NoTables(m0, Block(c, 0), n)
  {
    forall d: nat | IsUserDir(d) && Within(d, Block(c, 0), n) ensures !DirPresent(m0, d) {
      assert Target(m0, Dir(d)) == Target(s.mem, Dir(d));
      assert !DirPresent(s.mem, d);
    }
  }

  lemma ForkTables(s: Sys, p: nat, c: nat, n: nat) returns (r: Outcome)
    requires SysInv(s) && (p == 0 ==> n == 1) && 1 <= c < NR_TASKS && c !in s.tasks && c != p && p < NR_TASKS
    requires n <= DIRS_PER_TASK
    requires FreeFrame(s.mem) != 0
    ensures var f := FreeFrame(s.mem);
            var m0 := Claim(s.mem, f);
            && f !in s.held && r == CopyMem(m0, Block(p, 0), Block(c, 0), n) && !r.Panic?
            && Inv(r.mem, s.held + {f}, s.start)
            && SameLow(s.mem, r.mem) && SameHeld(s.mem, r.mem, s.held) && SameOutside(s.mem, r.mem, Block(c, 0), n)
            && (r.Done? ==> Copied(s.mem, r.mem, Block(p, 0), Block(c, 0), n))
            && (r.NoMemory? ==> r.mem.cnt == m0.cnt && SameViews(s.mem, r.mem) && forall x :: IsSlot(x) ==>
                  Target(r.mem, x) == Target(s.mem, x))
  {
    var f := FreeFrame(s.mem);
    ClaimInv(s.mem, s.held, s.start);
    var m0 := Claim(s.mem, f);
    NoChildTables(s, m0, c, n);
    CopyMemInv(m0, s.held + {f}, s.start, Block(p, 0), Block(c, 0), n);
    r := CopyMem(m0, Block(p, 0), Block(c, 0), n);
    hide CopyMem, Inv, Claim;
    if r.Done? { CopiedFrom(s.mem, m0, r.mem, Block(p, 0), Block(c, 0), n); }
  }

  lemma CopiedFrom(m: Mem, m0: Mem, m': Mem, fd: nat, td: nat, n: nat)
    requires Shape(m) && Shape(m0) && Shape(m') && SameViews(m, m0)
    requires (n > 0 ==> IsDir(fd) && fd + n <= WORDS && (fd == 0 ==> n == 1))
    requires Copied(m0, m', fd, td, n)
    ensures Copied(m, m', fd, td, n)
  {
  }

  lemma ForkedView(s: Sys, m: Mem, p: nat, c: nat, n: nat, d: nat, i: nat)
    requires SysInv(s) && Shape(m) && 1 <= c < NR_TASKS && c !in s.tasks && c != p && IsPage(d, i)
    requires p == 0 ==> n == 1
    requires p != 0 ==> Living(s, p) && p < NR_TASKS && n == Blocks(s.tasks[p].data) && n <= DIRS_PER_TASK
    requires SameOutside(s.mem, m, Block(c, 0), n) && Copied(s.mem, m, Block(p, 0), Block(c, 0), n)
    ensures ViewAt(m, d, i) ==
            if d / DIRS_PER_TASK != c then ViewAt(s.mem, d, i)
            else if p == 0 then (if d % DIRS_PER_TASK == 0 && i < KERNEL_ENTRIES then Low(i) else Unmapped)
            else ViewAt(s.mem, Block(p, d % DIRS_PER_TASK), i)
  {
    hide SysInv, ViewAt;
    ShapeOf(s);
    var k := d % DIRS_PER_TASK;
    if d / DIRS_PER_TASK != c {
      assert !Within(d, Block(c, 0), n);
    } else if k < n {
      assert Within(d, Block(c, 0), n);
      assert d - Block(c, 0) + Block(p, 0) == Block(p, k);
      assert ViewAt(m, d, i) == ParentView(s.mem, Block(p, k), i);
    } else {
      assert !Within(d, Block(c, 0), n);
      NoTableNoView(s, d, i);
      if p != 0 { NoTableNoView(s, Block(p, k), i); }
    }
  }

  lemma NoTableNoView(s: Sys, d: nat, i: nat)
    requires SysInv(s) && IsPage(d, i)
    requires var t := d / DIRS_PER_TASK; t in s.tasks ==> d % DIRS_PER_TASK >= Blocks(s.tasks[t].data)
    ensures ViewAt(s.mem, d, i) == Unmapped
  {
    assert !DirPresent(s.mem, d);
  }

  lemma ForkSound(s: Sys, m: Mem, c: nat, child: Task, f: nat)
    requires SysInv(s) && Inv(m, s.held + {f}, s.start) && 1 <= c < NR_TASKS && c !in s.tasks && f !in s.held
    requires SameOutside(s.mem, m, Block(c, 0), Blocks(child.data))
    requires child.page == f && child.alive && 0 < child.data <= SPACE && child.code <= child.data
    ensures SysInv(Sys(m, s.held + {f}, s.tasks[c := child], s.start))
  {
    var s' := Sys(m, s.held + {f}, s.tasks[c := child], s.start);
    forall u | u in s'.tasks ensures GoodTask(s', u) {
      forall v | v in s.tasks ensures s.tasks[v].page in s.held { assert GoodTask(s, v); }
      if u != c { assert GoodTask(s, u); }
    }
    assert Shape(s.mem) && Shape(m) && TablesInside(s);
    hide Inv;
    forall d: nat | IsUserDir(d) && DirPresent(m, d)
      ensures var u := d / DIRS_PER_TASK;
              u in s'.tasks && s'.tasks[u].alive && d % DIRS_PER_TASK < Blocks(s'.tasks[u].data)
    {
      if !Within(Dir(d).d, Block(c, 0), Blocks(child.data)) {
        assert Target(m, Dir(d)) == Target(s.mem, Dir(d)) != -1;
        assert DirPresent(s.mem, d);
      } else {
        BlocksBound(child.data);
      }
    }
  }

  lemma ForkMeaning(s: Sys, m: Mem, p: nat, c: nat, child: Task, f: nat)
    requires SysInv(s) && 1 <= c < NR_TASKS && c !in s.tasks && c != p && f !in s.held && |m.ram| == |s.mem.ram|
    requires Shape(m)
    requires SysInv(Sys(m, s.held + {f}, s.tasks[c := child], s.start)) && SameLow(s.mem, m)
    requires SameHeld(s.mem, m, s.held)
    requires if p == 0 then Blocks(child.data) == 1
               else Living(s, p) && p < NR_TASKS && child.data == s.tasks[p].data && Blocks(child.data) <= DIRS_PER_TASK
    requires SameOutside(s.mem, m, Block(c, 0), Blocks(child.data))
    requires Copied(s.mem, m, Block(p, 0), Block(c, 0), Blocks(child.data))
    ensures var s' := Sys(m, s.held + {f}, s.tasks[c := child], s.start);
            && f in Meaning(s').pages
            && Meaning(s') == Spaces(Forked(Meaning(s).view, p, c), Meaning(s).low,
                 Meaning(s).pages[f := Meaning(s').pages[f]], s.tasks[c := child])
  {
    var s' := Sys(m, s.held + {f}, s.tasks[c := child], s.start);
    ForkMeaningView(s, m, p, c, child, f);
    ForkMeaningPages(s, m, c, child, f);
  }

  lemma ForkMeaningPages(s: Sys, m: Mem, c: nat, child: Task, f: nat)
    requires SysInv(s) && f !in s.held && |m.ram| == |s.mem.ram| && Shape(m)
    requires SysInv(Sys(m, s.held + {f}, s.tasks[c := child], s.start)) && SameLow(s.mem, m)
    requires SameHeld(s.mem, m, s.held)
    ensures var s' := Sys(m, s.held + {f}, s.tasks[c := child], s.start);
            f in Meaning(s').pages && Meaning(s').pages == Meaning(s).pages[f := Meaning(s').pages[f]] &&
                Meaning(s').low == Meaning(s).low
  {
    var s' := Sys(m, s.held + {f}, s.tasks[c := child], s.start);
    hide SysInv, ViewAt;
    LowStays(s, s');
    PageHeld(s, s', f);
    MeaningTasks(s');
  }

  lemma ForkMeaningView(s: Sys, m: Mem, p: nat, c: nat, child: Task, f: nat)
    requires SysInv(s) && Shape(m) && 1 <= c < NR_TASKS && c !in s.tasks && c != p
    requires SysInv(Sys(m, s.held + {f}, s.tasks[c := child], s.start))
    requires if p == 0 then Blocks(child.data) == 1
               else Living(s, p) && p < NR_TASKS && child.data == s.tasks[p].data && Blocks(child.data) <= DIRS_PER_TASK
    requires SameOutside(s.mem, m, Block(c, 0), Blocks(child.data))
    requires Copied(s.mem, m, Block(p, 0), Block(c, 0), Blocks(child.data))
    ensures Meaning(Sys(m, s.held + {f}, s.tasks[c := child], s.start)).view == Forked(Meaning(s).view, p, c)
  {
    hide SysInv, Shape, SameOutside, Copied, ViewAt, Blocks, Living, ForkedPage, Meaning;
    var s' := Sys(m, s.held + {f}, s.tasks[c := child], s.start);
    ShapeOf(s);
    var n := Blocks(child.data);
    var a, b := Meaning(s').view, Forked(Meaning(s).view, p, c);
    MeaningKeys(s);
    MeaningKeys(s');
    forall q | q in a ensures q in b && a[q] == b[q] {
      ForkedView(s, m, p, c, n, q.0, q.1);
      MeaningAt(s', q.0, q.1);
      ForkedPageAt(s, p, c, q);
    }
    assert a.Keys == b.Keys;
  }

  lemma MeaningKeys(s: Sys)
    requires SysInv(s)
    ensures Meaning(s).view.Keys == AllPages()
  {
  }

  lemma ForkedPageAt(s: Sys, p: nat, c: nat, q: (nat, nat))
    requires SysInv(s) && IsPage(q.0, q.1) && p < NR_TASKS
    ensures q in Meaning(s).view
    ensures ForkedPage(Meaning(s).view, p, c, q) ==
            if q.0 / DIRS_PER_TASK != c then ViewAt(s.mem, q.0, q.1)
            else if p == 0 then (if q.0 % DIRS_PER_TASK == 0 && q.1 < KERNEL_ENTRIES then Low(q.1) else Unmapped)
            else ViewAt(s.mem, Block(p, q.0 % DIRS_PER_TASK), q.1)
  {
    hide Meaning, ViewAt;
    MeaningAt(s, q.0, q.1);
    if p != 0 { MeaningAt(s, Block(p, q.0 % DIRS_PER_TASK), q.1); }
  }

  lemma ForkStep(s: Sys, p: nat, c: nat)
    requires SysInv(s) && Enabled(s, Fork(p, c))
    ensures var r := Apply(s, Fork(p, c));
            && r.Next? && SysInv(r.sys) && EagerStep(Meaning(s), Fork(p, c), Meaning(r.sys), r.full)
            && (r.full ==> r.sys.mem.cnt == s.mem.cnt && r.sys.held == s.held && r.sys.tasks == s.tasks)
  {
    if FreeFrame(s.mem) != 0 {
      if p != 0 { assert GoodTask(s, p); }
      ForkWithPage(s, p, c);
    }
  }

  ghost function ChildOf(s: Sys, p: nat, f: nat): Task
    requires p == 0 || p in s.tasks
  {
    if p == 0 then Task(TASK0_LIMIT, TASK0_LIMIT, f, true) else s.tasks[p].(page := f)
  }

  lemma DoForkCases(s: Sys, p: nat, c: nat, r: Outcome)
    requires Shape(s.mem) && 1 <= c < NR_TASKS && p < NR_TASKS && (p != 0 ==> p in s.tasks && s.tasks[p].data <= SPACE)
    requires FreeFrame(s.mem) != 0
    requires Blocks(ChildOf(s, p, FreeFrame(s.mem)).data) <= DIRS_PER_TASK && (p == 0 ==> Blocks(TASK0_LIMIT) == 1)
    requires r == CopyMem(Claim(s.mem, FreeFrame(s.mem)), Block(p, 0), Block(c, 0),
               Blocks(ChildOf(s, p, FreeFrame(s.mem)).data))
    ensures var f := FreeFrame(s.mem);
            && (r.Done? ==>
                  DoFork(s, p, c) == Next(Sys(r.mem, s.held + {f}, s.tasks[c := ChildOf(s, p, f)], s.start), false))
            && (r.NoMemory? && FreePage(r.mem, f).Done? ==>
                  DoFork(s, p, c) == Next(s.(mem := FreePage(r.mem, f).mem), true))
  {
    hide CopyMem, Claim, FreePage, Shape;
  }

  lemma ForkDone(s: Sys, m: Mem, p: nat, c: nat) returns (s': Sys)
    requires SysInv(s) && Enabled(s, Fork(p, c)) && FreeFrame(s.mem) != 0 && FreeFrame(s.mem) !in s.held && p < NR_TASKS
    requires (p != 0 ==> GoodTask(s, p))
    requires var f := FreeFrame(s.mem);
             var n := Blocks(ChildOf(s, p, f).data);
             && Inv(m, s.held + {f}, s.start) && SameLow(s.mem, m) && SameHeld(s.mem, m, s.held)
             && SameOutside(s.mem, m, Block(c, 0), n)
             && n <= DIRS_PER_TASK && (p == 0 ==> n == 1) && Copied(s.mem, m, Block(p, 0), Block(c, 0), n)
    ensures s' == Sys(m, s.held + {FreeFrame(s.mem)}, s.tasks[c := ChildOf(s, p, FreeFrame(s.mem))], s.start)
    ensures SysInv(s') && EagerStep(Meaning(s), Fork(p, c), Meaning(s'), false)
  {
    var f := FreeFrame(s.mem);
    var child := ChildOf(s, p, f);
    s' := Sys(m, s.held + {f}, s.tasks[c := child], s.start);
    assert Shape(m) && Shape(s.mem);
    hide EagerStep, Meaning, Forked, Inv;
    ForkSound(s, m, c, child, f);
    ForkMeaning(s, m, p, c, child, f);
    MeaningTasks(s);
    EagerFork(Meaning(s), Meaning(s'), p, c, f, child);
  }

  lemma EagerFork(a: Spaces, a': Spaces, p: nat, c: nat, f: nat, child: Task)
    requires c !in a.tasks && (p != 0 ==> p in a.tasks && child == a.tasks[p].(page := f)) && child.page == f
    requires child.alive && f !in a.pages
    requires f in a'.pages && a' == Spaces(Forked(a.view, p, c), a.low, a.pages[f := a'.pages[f]], a.tasks[c := child])
    ensures EagerStep(a, Fork(p, c), a', false)
  {
    hide Forked;
  }

  lemma ForkWithPage(s: Sys, p: nat, c: nat)
    requires SysInv(s) && Enabled(s, Fork(p, c)) && FreeFrame(s.mem) != 0 && p < NR_TASKS && (p != 0 ==> GoodTask(s, p))
    ensures var r := DoFork(s, p, c);
            && r.Next? && SysInv(r.sys) && EagerStep(Meaning(s), Fork(p, c), Meaning(r.sys), r.full)
            && (r.full ==> r.sys.mem.cnt == s.mem.cnt && r.sys.held == s.held && r.sys.tasks == s.tasks)
  {
    hide SysInv, CopyMem, Meaning, Inv, Shape, Claim, DoFork, FreeFrame, SameOutside, SameLow, SameHeld, Copied,
         SameViews;
    ShapeOf(s);
    var f := FreeFrame(s.mem);
    BlocksBound(ChildOf(s, p, f).data);
    var r := ForkTables(s, p, c, Blocks(ChildOf(s, p, f).data));
    DoForkCases(s, p, c, r);
    if r.Done? {
      var s' := ForkDone(s, r.mem, p, c);
    } else {
      ForkFailed(s, r.mem, f);
    }
  }

  /** Giving the task structure's page back after copy_mem has cleaned up. */
  lemma ForkFailed(s: Sys, m: Mem, f: nat)
    requires SysInv(s) && f == FreeFrame(s.mem) && f != 0 && f !in s.held && Inv(m, s.held + {f}, s.start)
    requires m.cnt == Claim(s.mem, f).cnt
    requires SameLow(s.mem, m) && SameHeld(s.mem, m, s.held) && SameViews(s.mem, m) && forall x :: IsSlot(x) ==>
               Target(m, x) == Target(s.mem, x)
    ensures var r := FreePage(m, f);
            && r.Done? && r.mem.cnt == s.mem.cnt && SysInv(s.(mem := r.mem)) && Meaning(s.(mem := r.mem)) == Meaning(s)
  {
    ReleaseInv(m, s.held + {f}, s.start, f);
    assert s.held + {f} - {f} == s.held;
    var m' := FreePage(m, f).mem;
    forall t | t in s.tasks ensures s.tasks[t].page in s.held { assert GoodTask(s, t); }
    assert SameViews(s.mem, m');
    NoPage(s, m', s.held, s.tasks);
    var s' := s.(mem := m');
    assert s' == Sys(m', s.held, s.tasks, s.start);
    hide SysInv, ViewAt, Inv;
    LowStays(s, s');
    PagesStay(s, s');
  }

  // ---- Runs ----

  /** Memory as head.s and mem_init leave it: no task but task 0, every page above `start` free. */
  ghost predicate Boot(s: Sys) {
    && Shape(s.mem) && LOW <= s.start <= |s.mem.ram| && s.held == {} && s.tasks == map[]
    && NoTables(s.mem, FIRST_DIR, WORDS - FIRST_DIR)
    && forall f :: LOW <= f < LOW + PAGING_PAGES ==> Count(s.mem, f) == if s.start <= f < |s.mem.ram| then 0 else USED
  }

  lemma BootInv(s: Sys)
    requires Boot(s)
    ensures SysInv(s)
  {
    forall x | IsSlot(x) ensures Target(s.mem, x) == -1 { assert !DirPresent(s.mem, x.d); }
    forall f | s.start <= f < |s.mem.ram| ensures Refs(s.mem, f) == {} {}
  }

  /** Every event keeps the system sound, ends without a panic, and is a step
      of the eager machine; memory being full is the only way it has no effect. */
  lemma StepSound(s: Sys, e: Event)
    requires SysInv(s) && Enabled(s, e)
    ensures var r := Apply(s, e);
            && r.Next? && SysInv(r.sys) && EagerStep(Meaning(s), e, Meaning(r.sys), r.full)
            && (r.full && !e.Fork? ==> FreeFrame(s.mem) == 0)
  {
    hide Apply, SysInv, EagerStep, Meaning, ViewAt, Inside, Spare, Shape;
    match e
    case Fork(p, c) => ForkStep(s, p, c);
    case Exit(t) => ExitStep(s, t);
    case Release(t) => ReleaseStep(s, t);
    case Exec(t, code, data) => ExecStep(s, t, code, data);
    case TakePage => TakePageStep(s);
    case DropPage(f) => DropPageStep(s, f);
    case FillPage(f, contents) => FillPageStep(s, f, contents);
    case GivePage(f, t, k, i) => GivePageStep(s, f, t, k, i);
    case Share(t, p, k, i) => ShareStep(s, t, p, k, i);
    case Verify(t, k, i) => VerifyStep(s, t, k, i);
    case Write(t, k, i, j, v) => WriteStep(s, t, k, i, j, v);
    case WriteLow(f, j, v) => WriteLowStep(s, f, j, v);
  }

  /** The state after any sequence of events; one that cannot happen is passed over. */
  ghost function Final(s: Sys, events: seq<Event>): (r: Sys)
    requires SysInv(s)
    ensures SysInv(r)
    decreases |events|
  {
    if events == [] then s
    else if Enabled(s, events[0]) then
      StepSound(s, events[0]);
      Final(Apply(s, events[0]).sys, events[1..])
    else Final(s, events[1..])
  }

  /** All states of the run, the first one included. */
  ghost function States(s: Sys, events: seq<Event>): (r: seq<Sys>)
    requires SysInv(s)
    ensures |r| == |events| + 1 && forall k :: 0 <= k < |r| ==> SysInv(r[k])
    decreases |events|
  {
    if events == [] then [s]
    else if Enabled(s, events[0]) then
      StepSound(s, events[0]);
      [s] + States(Apply(s, events[0]).sys, events[1..])
    else [s] + States(s, events[1..])
  }

  /** Copy-on-write refines eager copying, along every run from boot: each
      event that can happen is the same event of the eager machine. */
  lemma {:induction false} RunIsEager(s: Sys, events: seq<Event>, k: nat)
    requires SysInv(s) && k < |events|
    ensures var run := States(s, events);
            && run[0] == s
            && (if Enabled(run[k], events[k])
                then Apply(run[k], events[k]).Next? && run[k + 1] == Apply(run[k], events[k]).sys
                     && EagerStep(Meaning(run[k]), events[k], Meaning(run[k + 1]), Apply(run[k], events[k]).full)
                else run[k + 1] == run[k])
    decreases |events|
  {
    hide Apply, SysInv, EagerStep, Meaning, Enabled, Shape;
    ShapeOf(s);
    if Enabled(s, events[0]) { StepSound(s, events[0]); }
    var s' := if Enabled(s, events[0]) then Apply(s, events[0]).sys else s;
    var rest := States(s', events[1..]);
    StatesUnfold(s, events);
    if k > 0 {
      RunIsEager(s', events[1..], k - 1);
      assert events[1..][k - 1] == events[k];
    } else {
      StatesFirst(s', events[1..]);
    }
  }

  lemma StatesUnfold(s: Sys, events: seq<Event>)
    requires SysInv(s) && events != []
    ensures Enabled(s, events[0]) ==> Apply(s, events[0]).Next? && SysInv(Apply(s, events[0]).sys)
    ensures States(s, events) == [s] + States(if Enabled(s, events[0]) then Apply(s, events[0]).sys else s, events[1..])
  {
    if Enabled(s, events[0]) { StepSound(s, events[0]); }
    hide Apply, SysInv, Enabled;
  }

  lemma StatesFirst(s: Sys, events: seq<Event>)
    requires SysInv(s)
    ensures States(s, events)[0] == s
  {
    hide Apply, SysInv, Enabled;
  }

  /** Page conservation, from boot on: mem_map is the number of users of every
      page, and stays below NR_TASKS, hence clear of USED and of 256. */
  lemma CountsAreRight(s: Sys, events: seq<Event>, f: nat)
    requires Boot(s) && LOW <= f < LOW + PAGING_PAGES
    ensures SysInv(s)
    ensures var r := Final(s, events);
            && Shape(r.mem)
            && Count(r.mem, f) == (if r.start <= f < |r.mem.ram| then |Refs(r.mem, f)| + (if f in r.held then 1 else 0)
                 else USED)
            && (r.start <= f < |r.mem.ram| ==> Count(r.mem, f) < NR_TASKS)
  {
    BootInv(s);
    var r := Final(s, events);
    if r.start <= f < |r.mem.ram| { CountBound(r.mem, r.held, r.start, f); }
  }

  /** The task whose space an event may change. */
  ghost function Touched(e: Event): nat {
    match e
    case Fork(_, c) => c
    case Exit(t) => t
    case Release(t) => t
    case Exec(t, _, _) => t
    case TakePage => 0
    case DropPage(_) => 0
    case FillPage(_, _) => 0
    case GivePage(_, t, _, _) => t
    case Share(t, _, _, _) => t
    case Verify(t, _, _) => t
    case Write(t, _, _, _, _) => t
    case WriteLow(_, _, _) => 0
  }

  /** What a task reads at page (d, i). */
  ghost function ReadAt(m: Mem, d: nat, i: nat): seq<Word>
    requires Shape(m) && IsPage(d, i)
  {
    match ViewAt(m, d, i)
    case Unmapped => []
    case Private(page, _) => page
    case Low(f) => if f < |m.ram| then m.ram[f] else []
  }

  /** Frame f is not the page directory, and no event stores into it from outside paging. */
  predicate Undisturbed(events: seq<Event>, f: nat) {
    f > 0 && forall k :: 0 <= k < |events| && events[k].WriteLow? ==> events[k].f != f
  }

  /** In every later run, whatever other tasks do (fork from this one, share with it, fault, store, exit), a task keeps
      seeing the pages it saw. It reads there what it read, except that a page of the low megabyte, which belongs to
      everyone, can be stored into by an event of its own. */
  lemma Isolation(s: Sys, events: seq<Event>, d: nat, i: nat)
    requires SysInv(s) && IsPage(d, i)
    requires forall k :: 0 <= k < |events| ==> Touched(events[k]) != d / DIRS_PER_TASK
    ensures ViewAt(Final(s, events).mem, d, i) == ViewAt(s.mem, d, i)
    ensures (ViewAt(s.mem, d, i).Low? ==> Undisturbed(events, ViewAt(s.mem, d, i).frame)) ==>
              ReadAt(Final(s, events).mem, d, i) == ReadAt(s.mem, d, i)
  {
    hide SysInv, Final;
    ViewsStay(s, events, d, i);
    ShapeOf(s);
    ShapeOf(Final(s, events));
    match ViewAt(s.mem, d, i)
    case Low(f) => if Undisturbed(events, f) { LowKept(s, events, f); }
    case _ =>
  }

  lemma {:induction false} ViewsStay(s: Sys, events: seq<Event>, d: nat, i: nat)
    requires SysInv(s) && IsPage(d, i)
    requires forall k :: 0 <= k < |events| ==> Touched(events[k]) != d / DIRS_PER_TASK
    ensures ViewAt(Final(s, events).mem, d, i) == ViewAt(s.mem, d, i)
    decreases |events|
  {
    if events != [] {
      var s' := s;
      if Enabled(s, events[0]) {
        StepSound(s, events[0]);
        s' := Apply(s, events[0]).sys;
        MeaningAt(s, d, i);
        MeaningAt(s', d, i);
        EagerIsolation(Meaning(s), events[0], Meaning(s'), Apply(s, events[0]).full, (d, i));
      }
      ViewsStay(s', events[1..], d, i);
    }
  }

  lemma {:induction false} LowKept(s: Sys, events: seq<Event>, f: nat)
    requires SysInv(s) && 0 < f < LOW && Undisturbed(events, f)
    ensures f < |s.mem.ram| && f < |Final(s, events).mem.ram| && Final(s, events).mem.ram[f] == s.mem.ram[f]
    decreases |events|
  {
    hide SysInv, Apply, Meaning, EagerStep, Enabled, Shape;
    ShapeOf(s);
    MeaningLow(s, f);
    if events != [] {
      var s' := s;
      if Enabled(s, events[0]) {
        StepSound(s, events[0]);
        s' := Apply(s, events[0]).sys;
        MeaningLow(s', f);
        EagerLow(Meaning(s), events[0], Meaning(s'), Apply(s, events[0]).full, f);
      }
      LowKept(s', events[1..], f);
    }
  }

  lemma MeaningLow(s: Sys, f: nat)
    requires SysInv(s) && 0 < f < LOW
    ensures f < |s.mem.ram| && f in Meaning(s).low && Meaning(s).low[f] == s.mem.ram[f]
  {
  }

  lemma EagerLow(a: Spaces, e: Event, a': Spaces, full: bool, f: nat)
    requires EagerStep(a, e, a', full) && f in a.low && !(e.WriteLow? && e.f == f)
    ensures f in a'.low && a'.low[f] == a.low[f]
  {
  }

  lemma EagerIsolation(a: Spaces, e: Event, a': Spaces, full: bool, p: (nat, nat))
    requires EagerStep(a, e, a', full) && p in a.view && p in a'.view && Touched(e) != p.0 / DIRS_PER_TASK
    requires e.GivePage? || e.Share? || e.Verify? || e.Write? ==> e.k < DIRS_PER_TASK
    ensures a'.view[p] == a.view[p]
  {
  }
}

/** What each elementary step of the paging code does to the invariant and to
    what every task sees. */
module PagingSteps {
  import opened PageTables
  import opened PagingInvariant

  /** What a task sees at a linear page: nothing, a page of its own, or a page
      of the low megabyte that the first fork lets it look at. clean: the
      processor has not marked the entry as written through. */
  datatype View = Unmapped | Private(page: seq<Word>, clean: bool) | Low(frame: nat)

  ghost function ViewAt(m: Mem, d: nat, i: nat): View
    requires Shape(m) && IsUserDir(d) && i < WORDS
  {
    var f := Target(m, Pte(d, i));
    if f < 0 then Unmapped
    else if f < LOW then Low(f)
    else if f < |m.ram| then Private(m.ram[f], !Entry(m, d, i).dirty)
    else Unmapped
  }

  /** Nobody's view changes, except possibly at (d, i). */
  ghost predicate SameViewsBut(m: Mem, m': Mem, d: nat, i: nat)
    requires Shape(m) && Shape(m')
  {
    forall d': nat, i': nat :: IsUserDir(d') && i' < WORDS && (d', i') != (d, i) ==>
        ViewAt(m', d', i') == ViewAt(m, d', i')
  }

  ghost predicate SameViews(m: Mem, m': Mem)
    requires Shape(m) && Shape(m')
  {
    forall d: nat, i: nat :: IsUserDir(d) && i < WORDS ==> ViewAt(m', d, i) == ViewAt(m, d, i)
  }

  ghost predicate SameLow(m: Mem, m': Mem)
    requires Shape(m) && Shape(m')
  {
    |m'.ram| == |m.ram| && forall f :: 0 < f < LOW ==> m'.ram[f] == m.ram[f]
  }

  /** Writing an entry leaves every page of data alone. */
  lemma SetPteViews(m: Mem, held: set<nat>, start: nat, x: Slot, w: Word)
    requires Inv(m, held, start) && IsSlot(x) && x.Pte? && DirPresent(m, x.d)
    requires w.present ==> w.frame < |m.ram| && w.frame != m.ram[0][x.d].frame
    ensures var m' := SetPte(m, x.d, x.i, w);
            && SameViewsBut(m, m', x.d, x.i) && SameLow(m, m')
            && ViewAt(m', x.d, x.i) == (if !w.present then Unmapped else if w.frame < LOW then Low(w.frame)
                 else Private(m.ram[w.frame], !w.dirty))
            && forall f :: f in held ==> m'.ram[f] == m.ram[f]
  {
    var m' := SetPte(m, x.d, x.i, w);
    SetPteOnly(m, held, start, x, w);
    assert GoodTarget(m, held, start, Dir(x.d));
    forall d: nat, i: nat | IsUserDir(d) && i < WORDS && (d, i) != (x.d, x.i)
      ensures ViewAt(m', d, i) == ViewAt(m, d, i)
    {
      assert GoodPair(m, Pte(d, i), Dir(x.d));
      assert Target(m', Pte(d, i)) == Target(m, Pte(d, i));
    }
  }

  // ---- A new, empty table ----

  ghost function NewTable(m: Mem, d: nat, f: nat): Mem
    requires Shape(m) && IsUserDir(d) && LOW <= f < |m.ram|
  {
    SetDir(Claim(m, f), d, Fresh(f))
  }

  /** A new table changes what no other slot refers to, and its own slot refers to it. */
  lemma NewTableSlots(m: Mem, held: set<nat>, start: nat, d: nat)
    requires Inv(m, held, start) && IsUserDir(d) && !DirPresent(m, d) && FreeFrame(m) != 0
    ensures var (f, m') := (FreeFrame(m), NewTable(m, d, FreeFrame(m)));
            && Shape(m') && |m'.ram| == |m.ram| && Refs(m, f) == {} && f !in held && start <= f < |m.ram|
            && Count(m, f) == 0
            && Target(m', Dir(d)) == f && Target(m, Dir(d)) == -1 && DirPresent(m', d) && m'.ram[0][d].frame == f
            && m'.cnt == m.cnt[f - LOW := 1] && (forall g :: 0 < g < |m.ram| && g != f ==> m'.ram[g] == m.ram[g])
            && forall s :: IsSlot(s) && s != Dir(d) ==>
                 Target(m', s) == Target(m, s) && (Writable(m', s) <==> Writable(m, s))
  {
    var f := FreeFrame(m);
    var m' := NewTable(m, d, f);
    FreeIsUnused(m, held, start, f);
    forall d': nat | IsUserDir(d') && d' != d && DirPresent(m, d')
      ensures m'.ram[m.ram[0][d'].frame] == m.ram[m.ram[0][d'].frame]
    {
      assert Target(m, Dir(d')) != f;
    }
  }

  lemma FreeIsUnused(m: Mem, held: set<nat>, start: nat, f: nat)
    requires Inv(m, held, start) && LOW <= f < |m.ram| && Count(m, f) == 0
    ensures start <= f && f !in held && Refs(m, f) == {}
    ensures forall s :: IsSlot(s) ==> Target(m, s) != f
  {
    if start <= f {
      assert Count(m, f) == |Refs(m, f)| + (if f in held then 1 else 0);
    }
  }

  /** An entry is as it was if its table is. */
  lemma EntryStays(m: Mem, m': Mem, d: nat, i: nat, f: nat)
    requires Shape(m) && Shape(m') && IsUserDir(d) && i < WORDS && |m'.ram| == |m.ram|
    requires Target(m, Dir(d)) == Target(m', Dir(d)) && Target(m, Dir(d)) != f
    requires forall g :: 0 < g < |m.ram| && g != f ==> m'.ram[g] == m.ram[g]
    ensures DirPresent(m', d) == DirPresent(m, d) && (DirPresent(m, d) ==> Entry(m', d, i) == Entry(m, d, i))
  {
  }

  lemma TargetHasTable(m: Mem, d: nat, i: nat)
    requires Shape(m) && IsUserDir(d) && i < WORDS && Target(m, Pte(d, i)) >= 0
    ensures DirPresent(m, d)
  {
  }

  lemma NewTableInv(m: Mem, held: set<nat>, start: nat, d: nat)
    requires Inv(m, held, start) && IsUserDir(d) && !DirPresent(m, d) && FreeFrame(m) != 0
    ensures var m' := NewTable(m, d, FreeFrame(m));
            && Inv(m', held, start) && SameViews(m, m') && SameLow(m, m')
            && (forall f :: f in held ==> m'.ram[f] == m.ram[f])
            && (forall s :: IsSlot(s) && s != Dir(d) ==> Target(m', s) == Target(m, s))
            && DirPresent(m', d) && m'.ram[0][d].frame == FreeFrame(m)
  {
    hide NewTable, Target, Writable, FreeFrame;
    NewTableSlots(m, held, start, d);
    var f := FreeFrame(m);
    var m' := NewTable(m, d, f);
    forall s | IsSlot(s) && s != Dir(d)
      ensures Target(m', s) == Target(m, s) && (Writable(m', s) <==> Writable(m, s)) && GoodTarget(m', held, start, s)
    {
      assert GoodTarget(m, held, start, s);
    }
    forall s, s' | IsSlot(s) && IsSlot(s') ensures GoodPair(m', s, s') {
      assert GoodPair(m, s, s');
    }
    forall g | start <= g < |m'.ram| ensures Count(m', g) == |Refs(m', g)| + (if g in held then 1 else 0) {
      RefsChange(m, m', Dir(d), g);
      assert Count(m, g) == |Refs(m, g)| + (if g in held then 1 else 0);
    }
    forall g | LOW <= g < LOW + PAGING_PAGES && !(start <= g < |m'.ram|) ensures Count(m', g) == USED {
      assert Count(m, g) == USED;
    }
    forall d': nat, i: nat | IsUserDir(d') && i < WORDS ensures ViewAt(m', d', i) == ViewAt(m, d', i) {
      assert Target(m', Pte(d', i)) == Target(m, Pte(d', i)) != f;
      if Target(m, Pte(d', i)) >= 0 {
        TargetHasTable(m, d', i);
        if d' != d { EntryStays(m, m', d', i, f); }
      }
    }
  }

  // ---- free_page_tables ----

  /** free_page never panics on a page something refers to. */
  lemma FreeNeverPanics(m: Mem, held: set<nat>, start: nat, s: Slot)
    requires Inv(m, held, start) && IsSlot(s) && Target(m, s) >= 0
    ensures FreePage(m, Target(m, s)).Done?
  {
    var f := Target(m, s);
    assert GoodTarget(m, held, start, s);
    if f >= LOW {
      assert s in Refs(m, f);
      assert Count(m, f) == |Refs(m, f)| + (if f in held then 1 else 0);
    }
  }

  lemma FreeEntryInv(m: Mem, held: set<nat>, start: nat, d: nat, i: nat)
    requires Inv(m, held, start) && IsUserDir(d) && i < WORDS && DirPresent(m, d)
    ensures var r := FreeEntry(m, d, i);
            && r.Done? && Inv(r.mem, held, start) && SameLow(m, r.mem)
            && SameViewsBut(m, r.mem, d, i) && ViewAt(r.mem, d, i) == Unmapped
            && SameElsewhere(m, r.mem, Pte(d, i)) && Target(r.mem, Pte(d, i)) == -1
            && (forall f :: f in held ==> r.mem.ram[f] == m.ram[f])
  {
    var x := Pte(d, i);
    if Target(m, x) >= 0 { FreeNeverPanics(m, held, start, x); }
    var m' := FreeEntry(m, d, i).mem;
    SetPteOnly(m, held, start, x, ZERO);
    SetPteViews(m, held, start, x, ZERO);
    assert GoodTarget(m, held, start, x);
    assert m'.ram == SetPte(m, d, i, ZERO).ram;
    assert OnlyEntry(m, m', x);
    EntryChange(m, m', held, start, x, ZERO);
    forall d': nat, i': nat | IsUserDir(d') && i' < WORDS
      ensures ViewAt(m', d', i') == ViewAt(SetPte(m, d, i, ZERO), d', i')
    {
    }
  }

  /** A dropped table changes what no other slot refers to, and its page has one user less. */
  lemma DropTableSlots(m: Mem, held: set<nat>, start: nat, d: nat)
    requires Inv(m, held, start) && IsUserDir(d) && DirPresent(m, d)
    requires forall i :: 0 <= i < WORDS ==> Target(m, Pte(d, i)) == -1
    ensures var (f, r) := (m.ram[0][d].frame, FreePage(m, m.ram[0][d].frame));
            && r.Done? && start <= f < |m.ram| && f !in held && Count(m, f) > 0
            && var m' := SetDir(r.mem, d, ZERO);
               && Shape(m') && |m'.ram| == |m.ram| && !DirPresent(m', d) && Target(m, Dir(d)) == f
               && Target(m', Dir(d)) == -1
               && m'.cnt == m.cnt[f - LOW := m.cnt[f - LOW] - 1]
               && (forall g :: 0 < g < |m.ram| ==> m'.ram[g] == m.ram[g])
               && forall s :: IsSlot(s) && s != Dir(d) ==>
                    Target(m', s) == Target(m, s) && (Writable(m', s) <==> Writable(m, s))
  {
    FreeNeverPanics(m, held, start, Dir(d));
    assert GoodTarget(m, held, start, Dir(d));
  }

  lemma DropTableInv(m: Mem, held: set<nat>, start: nat, d: nat)
    requires Inv(m, held, start) && IsUserDir(d) && DirPresent(m, d)
    requires forall i :: 0 <= i < WORDS ==> Target(m, Pte(d, i)) == -1
    ensures var r := FreePage(m, m.ram[0][d].frame);
            && r.Done?
            && var m' := SetDir(r.mem, d, ZERO);
            && Inv(m', held, start) && SameViews(m, m') && SameLow(m, m') && !DirPresent(m', d)
            && (forall s :: IsSlot(s) && s != Dir(d) ==> Target(m', s) == Target(m, s))
            && (forall f :: f in held ==> m'.ram[f] == m.ram[f])
  {
    hide FreePage, SetDir, Target, Writable;
    DropTableSlots(m, held, start, d);
    var m' := SetDir(FreePage(m, m.ram[0][d].frame).mem, d, ZERO);
    forall s | IsSlot(s) && s != Dir(d)
      ensures Target(m', s) == Target(m, s) && (Writable(m', s) <==> Writable(m, s)) && GoodTarget(m', held, start, s)
    {
      assert GoodTarget(m, held, start, s);
    }
    forall s, s' | IsSlot(s) && IsSlot(s') ensures GoodPair(m', s, s') {
      assert GoodPair(m, s, s');
    }
    forall g | start <= g < |m'.ram| ensures Count(m', g) == |Refs(m', g)| + (if g in held then 1 else 0) {
      RefsChange(m, m', Dir(d), g);
      assert Count(m, g) == |Refs(m, g)| + (if g in held then 1 else 0);
    }
    forall g | LOW <= g < LOW + PAGING_PAGES && !(start <= g < |m'.ram|) ensures Count(m', g) == USED {
      assert Count(m, g) == USED;
    }
    forall d': nat, i: nat | IsUserDir(d') && i < WORDS ensures ViewAt(m', d', i) == ViewAt(m, d', i) {
      assert Target(m', Pte(d', i)) == Target(m, Pte(d', i));
      if Target(m, Pte(d', i)) >= 0 {
        TargetHasTable(m, d', i);
        EntryStays(m, m', d', i, 0);
      }
    }
  }

  // ---- copy_page_tables ----

  /** What the forking task shows its child at entry i: the kernel's table maps low pages. */
  ghost function SourceView(m: Mem, fd: nat, i: nat): View
    requires Shape(m) && IsDir(fd) && i < Span(fd)
  {
    if fd == 0 then Low(i) else ViewAt(m, fd, i)
  }

  /** Taking write permission away changes nobody's view. */
  lemma ProtectInv(m: Mem, held: set<nat>, start: nat, x: Slot)
    requires Inv(m, held, start) && IsSlot(x) && x.Pte? && Target(m, x) >= LOW
    ensures var w := Entry(m, x.d, x.i).(rw := false);
            var m' := SetPte(m, x.d, x.i, w);
            && Inv(m', held, start) && SameViews(m, m') && SameLow(m, m')
            && (forall s :: IsSlot(s) ==> Target(m', s) == Target(m, s))
            && !Writable(m', x) && Entry(m', x.d, x.i) == w
            && (forall f :: f in held ==> m'.ram[f] == m.ram[f])
  {
    var w := Entry(m, x.d, x.i).(rw := false);
    var m' := SetPte(m, x.d, x.i, w);
    assert GoodTarget(m, held, start, x);
    assert GoodPair(m, x, Dir(x.d));
    SetPteOnly(m, held, start, x, w);
    SetPteViews(m, held, start, x, w);
    forall s | IsSlot(s) && s != x && Target(m, s) == w.frame ensures SameOffset(s, x) && !Writable(m, s) {
      assert GoodPair(m, s, x);
    }
    EntryChange(m, m', held, start, x, w);
  }

  /** Mapping a counted page read-only at one more place, at the linear page
      where its other users map it. */
  lemma AddUserInv(m: Mem, held: set<nat>, start: nat, x: Slot, w: Word)
    requires Inv(m, held, start) && IsSlot(x) && x.Pte? && DirPresent(m, x.d) && Target(m, x) == -1
    requires w.present && !w.rw && start <= w.frame < |m.ram| && w.frame !in held
    requires forall s :: IsSlot(s) && Target(m, s) == w.frame ==> SameOffset(s, x) && !Writable(m, s)
    ensures var m' := Inc(SetPte(m, x.d, x.i, w), w.frame);
            && Inv(m', held, start) && SameLow(m, m') && SameViewsBut(m, m', x.d, x.i)
            && ViewAt(m', x.d, x.i) == Private(m.ram[w.frame], !w.dirty) && SameElsewhere(m, m', x)
            && Target(m', x) == w.frame
            && (forall f :: f in held ==> m'.ram[f] == m.ram[f])
  {
    var m1 := SetPte(m, x.d, x.i, w);
    var m' := Inc(m1, w.frame);
    assert w.frame != m.ram[0][x.d].frame by { assert Target(m, Dir(x.d)) == m.ram[0][x.d].frame; }
    SetPteOnly(m, held, start, x, w);
    SetPteViews(m, held, start, x, w);
    CountBound(m, held, start, w.frame);
    assert OnlyEntry(m, m', x);
    EntryChange(m, m', held, start, x, w);
    forall d: nat, i: nat | IsUserDir(d) && i < WORDS ensures ViewAt(m', d, i) == ViewAt(m1, d, i) {
      assert Target(m', Pte(d, i)) == Target(m1, Pte(d, i));
    }
  }

  lemma CopyLowInv(m: Mem, held: set<nat>, start: nat, x: Slot, w: Word)
    requires Inv(m, held, start) && IsSlot(x) && x.Pte? && DirPresent(m, x.d) && Target(m, x) == -1
    requires w.present && !w.rw && w.frame < KERNEL_ENTRIES
    ensures var m' := SetPte(m, x.d, x.i, w);
            && Inv(m', held, start) && SameLow(m, m') && SameViewsBut(m, m', x.d, x.i)
            && ViewAt(m', x.d, x.i) == Low(w.frame) && SameElsewhere(m, m', x) && Target(m', x) == w.frame
            && (forall f :: f in held ==> m'.ram[f] == m.ram[f])
  {
    assert GoodTarget(m, held, start, Dir(x.d));
    SetPteOnly(m, held, start, x, w);
    SetPteViews(m, held, start, x, w);
    EntryChange(m, SetPte(m, x.d, x.i, w), held, start, x, w);
  }

  /** A page mapped at y becomes read-only there and is mapped read-only at x too. */
  lemma ShareInv(m: Mem, held: set<nat>, start: nat, y: Slot, x: Slot)
    requires Inv(m, held, start) && IsSlot(x) && IsSlot(y) && x != y && SameOffset(x, y)
    requires DirPresent(m, x.d) && Target(m, x) == -1 && LOW <= Target(m, y)
    ensures Target(m, y) < |m.ram|
    ensures var w := Entry(m, y.d, y.i).(rw := false);
            var m' := Inc(SetPte(SetPte(m, y.d, y.i, w), x.d, x.i, w), w.frame);
            && Inv(m', held, start) && SameLow(m, m') && SameViewsBut(m, m', x.d, x.i)
            && ViewAt(m', x.d, x.i) == ViewAt(m, y.d, y.i) && ViewAt(m, y.d, y.i).Private?
            && (forall s :: IsSlot(s) && s != x ==> Target(m', s) == Target(m, s)) && Target(m', x) == w.frame
            && (forall f :: f in held ==> m'.ram[f] == m.ram[f])
  {
    var w := Entry(m, y.d, y.i).(rw := false);
    assert GoodTarget(m, held, start, y);
    ProtectInv(m, held, start, y);
    var m1 := SetPte(m, y.d, y.i, w);
    forall s | IsSlot(s) && Target(m1, s) == w.frame ensures SameOffset(s, x) && !Writable(m1, s) {
      assert GoodPair(m1, s, y);
    }
    assert m1.ram[0] == m.ram[0];
    AddUserInv(m1, held, start, x, w);
    assert ViewAt(m1, y.d, y.i) == ViewAt(m, y.d, y.i);
  }

  lemma CopyEntryInv(m: Mem, held: set<nat>, start: nat, fd: nat, td: nat, i: nat)
    requires Inv(m, held, start) && IsDir(fd) && IsUserDir(td) && i < Span(fd)
    requires fd != td && fd % DIRS_PER_TASK == td % DIRS_PER_TASK
    requires DirPresent(m, fd) && DirPresent(m, td) && Target(m, Pte(td, i)) == -1
    ensures var r := CopyEntry(m, fd, td, i);
            && r.Done? && Inv(r.mem, held, start) && SameLow(m, r.mem)
            && SameViewsBut(m, r.mem, td, i) && ViewAt(r.mem, td, i) == SourceView(m, fd, i)
            && (fd != 0 ==> Target(r.mem, Pte(td, i)) == Target(m, Pte(fd, i)))
            && (forall s :: IsSlot(s) && s != Pte(td, i) ==> Target(r.mem, s) == Target(m, s))
            && (forall f :: f in held ==> r.mem.ram[f] == m.ram[f])
  {
    var x, y := Pte(td, i), Pte(fd, i);
    var w := Entry(m, fd, i);
    var ro := w.(rw := false);
    if !w.present {
      assert fd != 0 && Target(m, y) == -1;
    } else if w.frame < LOW {
      if fd != 0 { assert GoodTarget(m, held, start, y); }
      CopyLowInv(m, held, start, x, ro);
    } else {
      ShareInv(m, held, start, y, x);
      assert GoodPair(m, Dir(fd), Dir(td));
      var t1, t2 := m.ram[0][fd].frame, m.ram[0][td].frame;
      assert m.ram[t2 := m.ram[t2][i := ro]][t1 := m.ram[t1][i := ro]] ==
          m.ram[t1 := m.ram[t1][i := ro]][t2 := m.ram[t2][i := ro]];
      assert CopyEntry(m, fd, td, i).mem == Inc(SetPte(SetPte(m, fd, i, ro), td, i, ro), w.frame);
    }
  }

  // ---- Pages held by the kernel, and stores ----

  lemma ClaimInv(m: Mem, held: set<nat>, start: nat)
    requires Inv(m, held, start) && FreeFrame(m) != 0
    ensures var f := FreeFrame(m);
            && f !in held && Inv(Claim(m, f), held + {f}, start) && SameViews(m, Claim(m, f)) && SameLow(m, Claim(m, f))
            && (forall s :: IsSlot(s) ==> Target(Claim(m, f), s) == Target(m, s))
            && (forall g :: g in held ==> Claim(m, f).ram[g] == m.ram[g])
  {
    var f := FreeFrame(m);
    var m' := Claim(m, f);
    FreeIsUnused(m, held, start, f);
    OtherPage(m, held, start, m', held + {f}, f);
  }

  lemma ReleaseInv(m: Mem, held: set<nat>, start: nat, f: nat)
    requires Inv(m, held, start) && f in held
    ensures var r := FreePage(m, f);
            && r.Done? && Inv(r.mem, held - {f}, start) && SameViews(m, r.mem) && SameLow(m, r.mem)
            && (forall s :: IsSlot(s) ==> Target(r.mem, s) == Target(m, s))
  {
    assert Count(m, f) == |Refs(m, f)| + 1;
    forall s | IsSlot(s) ensures Target(m, s) != f { assert GoodTarget(m, held, start, s); }
    assert Refs(m, f) == {};
    OtherPage(m, held, start, FreePage(m, f).mem, held - {f}, f);
  }

  /** A page no slot refers to may change contents, count and holder together. */
  lemma OtherPage(m: Mem, held: set<nat>, start: nat, m': Mem, held': set<nat>, f: nat)
    requires Inv(m, held, start) && Shape(m') && start <= f < |m.ram|
    requires (forall g :: g != f ==> (g in held' <==> g in held))
    requires |m'.ram| == |m.ram| && forall g :: 0 <= g < |m.ram| && g != f ==> m'.ram[g] == m.ram[g]
    requires forall g :: LOW <= g < LOW + PAGING_PAGES && g != f ==> Count(m', g) == Count(m, g)
    requires forall s :: IsSlot(s) ==> Target(m, s) != f
    requires Count(m', f) == if f in held' then 1 else 0
    ensures Inv(m', held', start) && SameViews(m, m') && SameLow(m, m')
    ensures forall s :: IsSlot(s) ==> Target(m', s) == Target(m, s)
  {
    forall d: nat | IsUserDir(d) && DirPresent(m, d) ensures m.ram[0][d].frame != f { assert Target(m, Dir(d)) != f; }
    forall s | IsSlot(s)
      ensures Target(m', s) == Target(m, s) && (Writable(m', s) <==> Writable(m, s)) && GoodTarget(m', held', start, s)
    {
      assert GoodTarget(m, held, start, s);
    }
    forall s, s' | IsSlot(s) && IsSlot(s') ensures GoodPair(m', s, s') { assert GoodPair(m, s, s'); }
    forall g | start <= g < |m'.ram| ensures Count(m', g) == |Refs(m', g)| + (if g in held' then 1 else 0) {
      assert Refs(m', g) == Refs(m, g);
      assert Count(m, g) == |Refs(m, g)| + (if g in held then 1 else 0);
    }
    forall g | LOW <= g < LOW + PAGING_PAGES && !(start <= g < |m'.ram|) ensures Count(m', g) == USED {
      assert Count(m, g) == USED;
    }
    forall d: nat, i: nat | IsUserDir(d) && i < WORDS ensures ViewAt(m', d, i) == ViewAt(m, d, i) {
      assert Target(m', Pte(d, i)) == Target(m, Pte(d, i));
    }
  }

  /** The contents of a page that is not a table may change under the entries that map it. */
  lemma DataInv(m: Mem, m': Mem, held: set<nat>, start: nat, f: nat)
    requires Inv(m, held, start) && LOW <= f < |m.ram| && m'.cnt == m.cnt
    requires |m'.ram| == |m.ram| && |m'.ram[f]| == WORDS && forall g :: 0 <= g < |m.ram| && g != f ==>
               m'.ram[g] == m.ram[g]
    requires forall d: nat :: IsUserDir(d) ==> Target(m, Dir(d)) != f
    ensures Shape(m') && Inv(m', held, start) && SameLow(m, m')
    ensures forall s :: IsSlot(s) ==> Target(m', s) == Target(m, s) && (Writable(m', s) <==> Writable(m, s))
    ensures forall d: nat, i: nat :: IsUserDir(d) && i < WORDS ==>
              ViewAt(m', d, i) == if Target(m, Pte(d, i)) == f then Private(m'.ram[f], !Entry(m, d, i).dirty)
                else ViewAt(m, d, i)
  {
    forall d: nat | IsUserDir(d) && DirPresent(m, d) ensures m.ram[0][d].frame != f { assert Target(m, Dir(d)) != f; }
    assert Shape(m');
    forall s | IsSlot(s)
      ensures Target(m', s) == Target(m, s) && (Writable(m', s) <==> Writable(m, s)) && GoodTarget(m', held, start, s)
    {
      assert GoodTarget(m, held, start, s);
    }
    forall s, s' | IsSlot(s) && IsSlot(s') ensures GoodPair(m', s, s') { assert GoodPair(m, s, s'); }
    forall g | start <= g < |m'.ram| ensures Count(m', g) == |Refs(m', g)| + (if g in held then 1 else 0) {
      assert Refs(m', g) == Refs(m, g);
      assert Count(m, g) == |Refs(m, g)| + (if g in held then 1 else 0);
    }
    forall g | LOW <= g < LOW + PAGING_PAGES && !(start <= g < |m'.ram|) ensures Count(m', g) == USED {
      assert Count(m, g) == USED;
    }
  }

  /** So may those of a low page that is neither the directory nor a kernel table. */
  lemma LowPageInv(m: Mem, m': Mem, held: set<nat>, start: nat, f: nat)
    requires Inv(m, held, start) && 5 <= f < LOW && m'.cnt == m.cnt
    requires |m'.ram| == |m.ram| && |m'.ram[f]| == WORDS && forall g :: 0 <= g < |m.ram| && g != f ==>
               m'.ram[g] == m.ram[g]
    ensures Shape(m') && Inv(m', held, start) && SameViews(m, m')
    ensures forall s :: IsSlot(s) ==> Target(m', s) == Target(m, s)
  {
    assert Shape(m');
    forall s | IsSlot(s)
      ensures Target(m', s) == Target(m, s) && (Writable(m', s) <==> Writable(m, s)) && GoodTarget(m', held, start, s)
    {
      assert GoodTarget(m, held, start, s);
    }
    forall s, s' | IsSlot(s) && IsSlot(s') ensures GoodPair(m', s, s') { assert GoodPair(m, s, s'); }
    forall g | start <= g < |m'.ram| ensures Count(m', g) == |Refs(m', g)| + (if g in held then 1 else 0) {
      assert Refs(m', g) == Refs(m, g);
      assert Count(m, g) == |Refs(m, g)| + (if g in held then 1 else 0);
    }
    forall g | LOW <= g < LOW + PAGING_PAGES && !(start <= g < |m'.ram|) ensures Count(m', g) == USED {
      assert Count(m, g) == USED;
    }
  }

  // ---- put_page, un_wp_page, try_to_share ----

  /** put_page gives a task a page the kernel was holding. */
  lemma PutPageInv(m: Mem, held: set<nat>, start: nat, f: nat, d: nat, i: nat)
    requires Inv(m, held, start) && f in held && IsUserDir(d) && i < WORDS && Target(m, Pte(d, i)) == -1
    ensures var r := PutPage(m, f, d, i);
            && (r.NoMemory? ==> r.mem == m && FreeFrame(m) == 0)
            && (r.Done? ==>
                  && Inv(r.mem, held - {f}, start) && SameLow(m, r.mem) && SameViewsBut(m, r.mem, d, i)
                  && ViewAt(r.mem, d, i) == Private(m.ram[f], true) && Writable(r.mem, Pte(d, i))
                  && (forall g :: g in held ==> r.mem.ram[g] == m.ram[g]))
  {
    if DirPresent(m, d) {
      HandOverInv(m, held, start, f, d, i);
    } else if FreeFrame(m) != 0 {
      NewTableInv(m, held, start, d);
      HandOverInv(NewTable(m, d, FreeFrame(m)), held, start, f, d, i);
    }
  }

  lemma HandOverInv(m: Mem, held: set<nat>, start: nat, f: nat, d: nat, i: nat)
    requires Inv(m, held, start) && f in held && IsUserDir(d) && i < WORDS && DirPresent(m, d)
    requires Target(m, Pte(d, i)) == -1
    ensures var m' := SetPte(m, d, i, Fresh(f));
            && Inv(m', held - {f}, start) && SameLow(m, m') && SameViewsBut(m, m', d, i)
            && ViewAt(m', d, i) == Private(m.ram[f], true) && Writable(m', Pte(d, i))
            && (forall g :: g in held ==> m'.ram[g] == m.ram[g])
  {
    var x := Pte(d, i);
    var m' := SetPte(m, d, i, Fresh(f));
    forall s | IsSlot(s) ensures Target(m, s) != f { assert GoodTarget(m, held, start, s); }
    assert Target(m, Dir(d)) == m.ram[0][d].frame != f;
    SetPteOnly(m, held, start, x, Fresh(f));
    SetPteViews(m, held, start, x, Fresh(f));
    forall s | IsSlot(s) && s != x ensures Target(m', s) == Target(m, s) && (Writable(m', s) <==> Writable(m, s)) {}
    forall s | IsSlot(s) ensures GoodTarget(m', held - {f}, start, s) { assert GoodTarget(m, held, start, s); }
    forall s, s' | IsSlot(s) && IsSlot(s') ensures GoodPair(m', s, s') { assert GoodPair(m, s, s'); }
    forall g | start <= g < |m'.ram| ensures Count(m', g) == |Refs(m', g)| + (if g in held - {f} then 1 else 0) {
      RefsChange(m, m', x, g);
      assert Count(m, g) == |Refs(m, g)| + (if g in held then 1 else 0);
    }
    forall g | LOW <= g < LOW + PAGING_PAGES && !(start <= g < |m'.ram|) ensures Count(m', g) == USED {
      assert Count(m, g) == USED;
    }
  }

  /** un_wp_page, when nobody else uses the page. */
  lemma ReuseInv(m: Mem, held: set<nat>, start: nat, x: Slot)
    requires Inv(m, held, start) && IsSlot(x) && x.Pte? && Target(m, x) >= LOW && Count(m, Target(m, x)) == 1
    ensures var w := Entry(m, x.d, x.i).(rw := true);
            var m' := SetPte(m, x.d, x.i, w);
            && Inv(m', held, start) && SameLow(m, m') && SameViews(m, m') && Writable(m', x)
            && ViewAt(m, x.d, x.i).Private? && Target(m, x) < |m.ram|
            && (forall f :: f in held ==> m'.ram[f] == m.ram[f])
  {
    var w := Entry(m, x.d, x.i).(rw := true);
    var f := w.frame;
    assert GoodTarget(m, held, start, x);
    assert Count(m, f) == |Refs(m, f)| + (if f in held then 1 else 0);
    assert x in Refs(m, f) && |Refs(m, f) - {x}| == 0;
    forall s | IsSlot(s) && s != x ensures Target(m, s) != f {
      assert s !in Refs(m, f) - {x};
    }
    assert Target(m, Dir(x.d)) == m.ram[0][x.d].frame;
    SetPteOnly(m, held, start, x, w);
    SetPteViews(m, held, start, x, w);
    EntryChange(m, SetPte(m, x.d, x.i, w), held, start, x, w);
  }

  /** Entry (d, i) lets go of what it maps and maps the held page f instead. */
  lemma RemapInv(m: Mem, held: set<nat>, start: nat, f: nat, d: nat, i: nat)
    requires Inv(m, held, start) && f in held && IsUserDir(d) && i < WORDS && DirPresent(m, d)
    ensures var r := FreeEntry(m, d, i);
            && r.Done? && IsUserDir(d) && DirPresent(r.mem, d)
            && var m' := SetPte(r.mem, d, i, Fresh(f));
            && Inv(m', held - {f}, start) && SameLow(m, m') && SameViewsBut(m, m', d, i)
            && ViewAt(m', d, i) == Private(m.ram[f], true) && Writable(m', Pte(d, i))
            && (forall g :: g in held ==> m'.ram[g] == m.ram[g])
  {
    FreeEntryInv(m, held, start, d, i);
    HandOverInv(FreeEntry(m, d, i).mem, held, start, f, d, i);
  }

  /** Claiming page f and copying page `from` into it, as far as others can tell. */
  lemma ClaimCopyInv(m: Mem, held: set<nat>, start: nat, from: nat)
    requires Inv(m, held, start) && FreeFrame(m) != 0 && from < |m.ram| && from != FreeFrame(m)
    ensures var f := FreeFrame(m);
            var m' := Mem(m.ram[f := m.ram[from]], m.cnt[f - LOW := 1]);
            && f !in held && Inv(m', held + {f}, start) && SameLow(m, m') && SameViews(m, m')
            && (forall s :: IsSlot(s) ==> Target(m, s) != f && Target(m', s) == Target(m, s))
            && (forall g :: g in held ==> m'.ram[g] == m.ram[g])
  {
    var f := FreeFrame(m);
    ClaimInv(m, held, start);
    FreeIsUnused(m, held, start, f);
    var m1 := Claim(m, f);
    var m2 := Mem(m.ram[f := m.ram[from]], m.cnt[f - LOW := 1]);
    DataInv(m1, m2, held + {f}, start, f);
  }

  /** What an entry maps is neither its own table nor a free page. */
  lemma NotATable(m: Mem, held: set<nat>, start: nat, d: nat, i: nat)
    requires Inv(m, held, start) && IsUserDir(d) && i < WORDS && Target(m, Pte(d, i)) >= 0 && FreeFrame(m) != 0
    ensures var w, t := Entry(m, d, i), m.ram[0][d].frame;
            w.frame < |m.ram| && w.frame != t && w.frame != FreeFrame(m) && t != FreeFrame(m)
  {
    FreeIsUnused(m, held, start, FreeFrame(m));
    assert GoodTarget(m, held, start, Pte(d, i)) && GoodTarget(m, held, start, Dir(d));
    assert GoodPair(m, Pte(d, i), Dir(d));
    assert Target(m, Dir(d)) == m.ram[0][d].frame;
  }

  /** un_wp_page, when the page is shared: claim a page, copy, let go of the old one, map the new one. */
  lemma CopyOnWriteInv(m: Mem, held: set<nat>, start: nat, d: nat, i: nat) returns (m': Mem)
    requires Inv(m, held, start) && IsUserDir(d) && i < WORDS && Target(m, Pte(d, i)) >= 0 && FreeFrame(m) != 0
    requires Target(m, Pte(d, i)) >= LOW ==> Target(m, Pte(d, i)) < |m.ram| && m.cnt[Target(m, Pte(d, i)) - LOW] > 1
    ensures UnWriteProtect(m, d, i) == Done(m')
    ensures Inv(m', held, start) && SameLow(m, m') && SameViewsBut(m, m', d, i)
    ensures forall f :: f in held ==> m'.ram[f] == m.ram[f]
    ensures Writable(m', Pte(d, i)) && ViewAt(m', d, i) == Private(m.ram[Entry(m, d, i).frame], true)
  {
    hide Shape, UnWriteProtect, FreeEntry, SetPte, Inv, ViewAt, Writable, Target, FreeFrame, SameLow, SameViews,
         SameViewsBut;
    ShapeOfInv(m, held, start);
    EntryTarget(m, d, i);
    var f := FreeFrame(m);
    var from := Entry(m, d, i).frame;
    NotATable(m, held, start, d, i);
    var m2 := Mem(m.ram[f := m.ram[from]], m.cnt[f - LOW := 1]);
    ClaimCopyInv(m, held, start, from);
    ShapeOfInv(m2, held + {f}, start);
    EntryTarget(m2, d, i);
    CopyOnWriteOrder(m, d, i, f);
    RemapInv(m2, held + {f}, start, f, d, i);
    m' := SetPte(FreeEntry(m2, d, i).mem, d, i, Fresh(f));
    assert held + {f} - {f} == held;
    ComposeViews(m, m2, m', d, i);
  }

  lemma ShapeOfInv(m: Mem, held: set<nat>, start: nat)
    requires Inv(m, held, start)
    ensures Shape(m) && forall f :: f in held ==> f < |m.ram|
  {
  }

  lemma EntryTarget(m: Mem, d: nat, i: nat)
    requires Shape(m) && IsUserDir(d) && i < WORDS && Target(m, Pte(d, i)) >= 0
    ensures DirPresent(m, d) && Entry(m, d, i).present && Entry(m, d, i).frame == Target(m, Pte(d, i))
  {
  }

  lemma ComposeViews(m: Mem, m1: Mem, m2: Mem, d: nat, i: nat)
    requires Shape(m) && Shape(m1) && Shape(m2) && SameLow(m, m1) && SameViews(m, m1) && SameLow(m1, m2)
    requires SameViewsBut(m1, m2, d, i)
    ensures SameLow(m, m2) && SameViewsBut(m, m2, d, i)
  {
    hide ViewAt, Shape;
  }

  /** The order in which un_wp_page makes its updates does not matter. */
  lemma CopyOnWriteOrder(m: Mem, d: nat, i: nat, f: nat)
    requires Shape(m) && IsUserDir(d) && i < WORDS && DirPresent(m, d) && Entry(m, d, i).present && f == FreeFrame(m)
    requires f != 0
    requires m.ram[0][d].frame != f && Entry(m, d, i).frame != f && Entry(m, d, i).frame != m.ram[0][d].frame
    requires Entry(m, d, i).frame < |m.ram|
    requires Entry(m, d, i).frame >= LOW ==> m.cnt[Entry(m, d, i).frame - LOW] > 1
    ensures var m2 := Mem(m.ram[f := m.ram[Entry(m, d, i).frame]], m.cnt[f - LOW := 1]);
            var r := FreeEntry(m2, d, i);
            r.Done? && UnWriteProtect(m, d, i) == Done(SetPte(r.mem, d, i, Fresh(f)))
  {
    var w := Entry(m, d, i);
    var t := m.ram[0][d].frame;
    var m2 := Mem(m.ram[f := m.ram[w.frame]], m.cnt[f - LOW := 1]);
    assert Entry(m2, d, i) == w;
    assert m.ram[t][i := ZERO][i := Fresh(f)] == m.ram[t][i := Fresh(f)];
    var m3 := SetPte(FreeEntry(m2, d, i).mem, d, i, Fresh(f));
    assert m3.ram == m2.ram[t := m.ram[t][i := Fresh(f)]];
    assert UnWriteProtect(m, d, i).mem.ram == m.ram[f := ZeroPage()][t := m.ram[t][i := Fresh(f)]][f := m.ram[w.frame]];
    assert UnWriteProtect(m, d, i).mem.ram == m3.ram;
  }

  /** What un_wp_page leaves: the page as it is, if nobody else uses it, else a copy, which counts as clean. */
  ghost function Unshared(m: Mem, d: nat, i: nat): View
    requires Shape(m) && IsUserDir(d) && i < WORDS && DirPresent(m, d) && Entry(m, d, i).frame < |m.ram|
  {
    var f := Entry(m, d, i).frame;
    Private(m.ram[f], if f >= LOW && m.cnt[f - LOW] == 1 then !Entry(m, d, i).dirty else true)
  }

  /** After un_wp_page the task sees what it saw, and may write it; nobody else notices. */
  lemma UnWriteProtectInv(m: Mem, held: set<nat>, start: nat, d: nat, i: nat)
    requires Inv(m, held, start) && IsUserDir(d) && i < WORDS && Target(m, Pte(d, i)) >= 0
    ensures Entry(m, d, i).frame < |m.ram|
    ensures var r := UnWriteProtect(m, d, i);
            && !r.Panic? && (r.NoMemory? ==> r.mem == m && FreeFrame(m) == 0)
            && Inv(r.mem, held, start) && SameLow(m, r.mem) && SameViewsBut(m, r.mem, d, i)
            && (forall f :: f in held ==> r.mem.ram[f] == m.ram[f])
            && (r.Done? ==> Writable(r.mem, Pte(d, i)) && ViewAt(r.mem, d, i) == Unshared(m, d, i))
  {
    var x := Pte(d, i);
    var w := Entry(m, d, i);
    assert GoodTarget(m, held, start, x);
    var alone := w.frame >= LOW && m.cnt[w.frame - LOW] == 1;
    if alone {
      ReuseInv(m, held, start, x);
      assert UnWriteProtect(m, d, i) == Done(SetPte(m, d, i, w.(rw := true)));
    } else if FreeFrame(m) == 0 {
      assert UnWriteProtect(m, d, i) == NoMemory(m);
    } else {
      if w.frame >= LOW {
        assert x in Refs(m, w.frame);
        assert Count(m, w.frame) == |Refs(m, w.frame)| + (if w.frame in held then 1 else 0);
      }
      var m' := CopyOnWriteInv(m, held, start, d, i);
    }
  }

  lemma TryToShareInv(m: Mem, held: set<nat>, start: nat, fd: nat, td: nat, i: nat)
    requires Inv(m, held, start) && IsUserDir(fd) && IsUserDir(td) && i < WORDS
    requires fd != td && fd % DIRS_PER_TASK == td % DIRS_PER_TASK && Target(m, Pte(td, i)) == -1
    ensures var r := TryToShare(m, fd, td, i);
            && !r.SharePanic?
            && ((r.Shared? ==> r.ok) <==> ViewAt(m, fd, i).Private? && ViewAt(m, fd, i).clean)
            && (r.ShareNoMemory? ==> !DirPresent(m, td) && FreeFrame(m) == 0)
            && (r.Shared? && !r.ok ==> r.mem == m)
            && (r.Shared? && r.ok ==>
                  && Inv(r.mem, held, start) && SameLow(m, r.mem) && SameViewsBut(m, r.mem, td, i)
                  && ViewAt(m, fd, i).Private? && ViewAt(r.mem, td, i) == ViewAt(m, fd, i)
                  && (forall f :: f in held ==> r.mem.ram[f] == m.ram[f]))
  {
    var x, y := Pte(td, i), Pte(fd, i);
    if Target(m, y) >= LOW {
      assert GoodTarget(m, held, start, y);
      if DirPresent(m, td) {
        ShareInv(m, held, start, y, x);
      } else if FreeFrame(m) != 0 {
        var m1 := NewTable(m, td, FreeFrame(m));
        NewTableInv(m, held, start, td);
        FreeIsUnused(m, held, start, FreeFrame(m));
        assert Target(m, Dir(fd)) != FreeFrame(m);
        assert Entry(m1, fd, i) == Entry(m, fd, i);
        assert Target(m1, x) == -1 && Target(m1, y) == Target(m, y);
        ShareInv(m1, held, start, y, x);
        assert ViewAt(m1, fd, i) == ViewAt(m, fd, i);
      }
    }
  }

  // ---- Stores ----

  /** The processor's store through a writable entry: the word changes, the dirty bit is set. */
  ghost function StoreWord(m: Mem, d: nat, i: nat, j: nat, v: Word): Mem
    requires Shape(m) && IsUserDir(d) && i < WORDS && j < WORDS && DirPresent(m, d)
    requires LOW <= Entry(m, d, i).frame < |m.ram|
  {
    var f := Entry(m, d, i).frame;
    var m1 := SetPte(m, d, i, Entry(m, d, i).(dirty := true));
    m1.(ram := m1.ram[f := m1.ram[f][j := v]])
  }

  lemma DirtyInv(m: Mem, held: set<nat>, start: nat, x: Slot)
    requires Inv(m, held, start) && IsSlot(x) && Writable(m, x)
    ensures LOW <= Target(m, x) < |m.ram| && Target(m, x) !in held && Target(m, x) != m.ram[0][x.d].frame
    ensures forall s :: IsSlot(s) && s != x ==> Target(m, s) != Target(m, x)
    ensures var m' := SetPte(m, x.d, x.i, Entry(m, x.d, x.i).(dirty := true));
            && Inv(m', held, start) && SameLow(m, m') && SameViewsBut(m, m', x.d, x.i)
            && ViewAt(m', x.d, x.i) == Private(m.ram[Target(m, x)], false)
            && (forall s :: IsSlot(s) ==> Target(m', s) == Target(m, s))
            && (forall f :: f in held ==> m'.ram[f] == m.ram[f])
  {
    var w := Entry(m, x.d, x.i).(dirty := true);
    assert GoodTarget(m, held, start, x);
    forall s | IsSlot(s) && s != x ensures Target(m, s) != w.frame { assert GoodPair(m, s, x); }
    assert Target(m, Dir(x.d)) == m.ram[0][x.d].frame;
    SetPteOnly(m, held, start, x, w);
    SetPteViews(m, held, start, x, w);
    EntryChange(m, SetPte(m, x.d, x.i, w), held, start, x, w);
  }

  /** Only the storing task's own view of that one page changes. */
  lemma StoreInv(m: Mem, held: set<nat>, start: nat, d: nat, i: nat, j: nat, v: Word)
    requires Inv(m, held, start) && IsUserDir(d) && i < WORDS && j < WORDS && Writable(m, Pte(d, i))
    ensures ViewAt(m, d, i).Private? && |ViewAt(m, d, i).page| == WORDS && LOW <= Entry(m, d, i).frame < |m.ram|
    ensures var m' := StoreWord(m, d, i, j, v);
            && Shape(m') && Inv(m', held, start) && SameLow(m, m') && SameViewsBut(m, m', d, i)
            && ViewAt(m', d, i) == Private(ViewAt(m, d, i).page[j := v], false)
            && (forall f :: f in held ==> m'.ram[f] == m.ram[f])
  {
    var x := Pte(d, i);
    DirtyInv(m, held, start, x);
    var f := Entry(m, d, i).frame;
    DataInv(SetPte(m, d, i, Entry(m, d, i).(dirty := true)), StoreWord(m, d, i, j, v), held, start, f);
  }
}

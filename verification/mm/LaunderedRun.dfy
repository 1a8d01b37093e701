/** A run after which a shared page is not as it was brought in (linux-0.11/mm/memory.c:221-238, 261-272, 292-334):
    write_verify has copied a page that had been written, and the copy counts as clean. */
module LaunderedRun {
  import opened Basics
  import opened PageTables
  import opened PagingInvariant
  import opened PagingSteps
  import opened PagingTables
  import opened EagerSpaces
  import opened CopyOnWrite
  import opened ForkMemory
  import opened SharedPages

  const PAGE := 200    // a page of block 0 that tasks forked by task 0 do not have

  // ---- What the steps need ----

  lemma HasPage(m: Mem)
    requires Shape(m) && FreePages(m.cnt) > 0
    ensures FreeFrame(m) != 0
  {
    FreeFrameIs(m);
  }

  lemma UnprotectUses(m: Mem, d: nat, i: nat)
    requires Shape(m) && IsPage(d, i) && DirPresent(m, d) && UnWriteProtect(m, d, i).Done?
    ensures FreePages(UnWriteProtect(m, d, i).mem.cnt) >= FreePages(m.cnt) - 1
  {
    var w := Entry(m, d, i);
    if !(w.frame >= LOW && m.cnt[w.frame - LOW] == 1) {
      var f := FreeFrame(m);
      FreePagesSet(m.cnt, f - LOW, 1);
      var m1 := Claim(m, f);
      if w.frame >= LOW { FreePagesSet(m1.cnt, w.frame - LOW, m1.cnt[w.frame - LOW] - 1); }
    }
  }

  /** Taking, giving, storing and write_verify use up one page at most. */
  lemma StepUses(s: Sys, e: Event)
    requires SysInv(s) && Enabled(s, e) && FreePages(s.mem.cnt) > 0
    requires e.TakePage? || e.GivePage? || e.Write? || e.Verify? || e.Share?
    ensures var r := Apply(s, e);
            && r.Next? && !r.full && SysInv(r.sys) && r.sys.tasks == s.tasks
            && EagerStep(Meaning(s), e, Meaning(r.sys), false)
            && (!e.Share? ==> FreePages(r.sys.mem.cnt) >= FreePages(s.mem.cnt) - 1)
  {
    hide SysInv, EagerStep, Meaning, Inside, ViewAt, Spare, Shape, PutPage, UnWriteProtect, TryToShare, FreePages,
         FreeFrame, Claim, StoreWord;
    ShapeOf(s);
    HasPage(s.mem);
    StepSound(s, e);
    PagesUsed(s, e);
  }

  lemma PagesUsed(s: Sys, e: Event)
    requires SysInv(s) && Enabled(s, e) && FreeFrame(s.mem) != 0 && Apply(s, e).Next?
    requires e.TakePage? || e.GivePage? || e.Write? || e.Verify? || e.Share?
    ensures Apply(s, e).sys.tasks == s.tasks
    ensures !e.Share? ==> FreePages(Apply(s, e).sys.mem.cnt) >= FreePages(s.mem.cnt) - 1
  {
    hide SysInv, Shape, FreeFrame, TryToShare, FreePages, UnWriteProtect;
    ShapeOf(s);
    ClaimFree(s.mem);
    if e.Write? || e.Verify? {
      BlockIsInside(s, e.t, e.k, e.i);
      var d := Block(e.t, e.k);
      if DirPresent(s.mem, d) && UnWriteProtect(s.mem, d, e.i).Done? { UnprotectUses(s.mem, d, e.i); }
    }
  }

  /** A fork of a task with one table uses up two pages at most. */
  lemma ForkBounded(s: Sys, p: nat, c: nat)
    requires SysInv(s) && Enabled(s, Fork(p, c)) && p < NR_TASKS && Blocks(ChildOf(s, p, 0).data) == 1
    requires FreePages(s.mem.cnt) >= 2
    ensures var r := Apply(s, Fork(p, c));
            && r.Next? && !r.full && SysInv(r.sys) && EagerStep(Meaning(s), Fork(p, c), Meaning(r.sys), false)
            && r.sys.tasks == s.tasks[c := ChildOf(s, p, FreeFrame(s.mem))]
            && FreePages(r.sys.mem.cnt) >= FreePages(s.mem.cnt) - 2
  {
    hide SysInv, EagerStep, Meaning, Shape, FreePages, FreeFrame, CopyMem;
    StepSound(s, Fork(p, c));
    ForkRefused(s, p, c);
    ForkUses(s, p, c);
  }

  // ---- The run ----

  /** s is sound, and n pages are free. */
  ghost predicate Ready(s: Sys, n: nat) { SysInv(s) && FreePages(s.mem.cnt) >= n }

  /** Task t has the one block that a fork of task 0 gives it. */
  ghost predicate Small(s: Sys, t: nat) {
    t in s.tasks && s.tasks[t].alive && s.tasks[t].data == TASK0_LIMIT && 1 <= t < NR_TASKS
  }

  ghost function PageOfTask(s: Sys, t: nat): View
    requires SysInv(s) && Small(s, t)
  {
    SmallPage(s, t);
    ViewAt(s.mem, Block(t, 0), PAGE)
  }

  lemma SmallPage(s: Sys, t: nat)
    requires SysInv(s) && Small(s, t)
    ensures Inside(s, t, 0, PAGE) && IsPage(Block(t, 0), PAGE) && Shape(s.mem)
    ensures (Block(t, 0), PAGE) in Meaning(s).view && (Block(t, 0), PAGE) in AllPages()
    ensures Meaning(s).view[(Block(t, 0), PAGE)] == ViewAt(s.mem, Block(t, 0), PAGE)
    ensures Block(t, 0) / DIRS_PER_TASK == t && Block(t, 0) % DIRS_PER_TASK == 0
  {
    hide ViewAt, Shape;
    ShapeOf(s);
  }

  /** Task t sees what it saw. */
  ghost predicate Keeps(s: Sys, s': Sys, t: nat)
    requires SysInv(s) && SysInv(s')
  {
    Small(s, t) ==> Small(s', t) && PageOfTask(s', t) == PageOfTask(s, t)
  }

  /** Task 0 forks: the child has no page there yet, and other tasks see what they saw. */
  lemma FirstFork(s: Sys, c: nat, n: nat) returns (s': Sys)
    requires Ready(s, n + 2) && 1 <= c < NR_TASKS && c !in s.tasks
    ensures Shape(s.mem) && Enabled(s, Fork(0, c)) && Apply(s, Fork(0, c)) == Next(s', false) && Ready(s', n)
    ensures Small(s', c) && PageOfTask(s', c) == Unmapped
    ensures s'.tasks.Keys == s.tasks.Keys + {c} && (c != 3 ==> Keeps(s, s', 3))
  {
    hide SysInv, EagerStep, Meaning, Shape, FreePages, FreeFrame, ViewAt, Forked, Inside, Apply;
    ShapeOf(s);
    ForkBounded(s, 0, c);
    s' := Apply(s, Fork(0, c)).sys;
    SmallPage(s', c);
    if c != 3 && Small(s, 3) {
      SmallPage(s, 3);
      SmallPage(s', 3);
      ForkedAt(Meaning(s), Meaning(s'), 0, c, 3);
    }
    MeaningKeys(s);
    ForkedAt(Meaning(s), Meaning(s'), 0, c, c);
  }

  lemma ForkedAt(a: Spaces, a': Spaces, p: nat, c: nat, t: nat)
    requires EagerStep(a, Fork(p, c), a', false) && (Block(t, 0), PAGE) in a.view
    ensures (Block(t, 0), PAGE) in a'.view
    ensures t != c ==> a'.view[(Block(t, 0), PAGE)] == a.view[(Block(t, 0), PAGE)]
    ensures t == c && p == 0 ==> a'.view[(Block(t, 0), PAGE)] == Unmapped
    ensures t == c && p != 0 && (Block(p, 0), PAGE) in a.view ==>
              a'.view[(Block(t, 0), PAGE)] == a.view[(Block(p, 0), PAGE)]
  {
  }

  /** The steps that touch one page of one task at most. */
  ghost predicate AtPage(e: Event) {
    e.TakePage? || ((e.GivePage? || e.Write? || e.Verify? || e.Share?) && e.k == 0 && e.i == PAGE)
  }

  lemma OthersAt(a: Spaces, e: Event, a': Spaces, t: nat)
    requires EagerStep(a, e, a', false) && AtPage(e) && (Block(t, 0), PAGE) in a.view && (!e.TakePage? ==> e.t != t)
    ensures (Block(t, 0), PAGE) in a'.view && a'.view[(Block(t, 0), PAGE)] == a.view[(Block(t, 0), PAGE)]
  {
  }

  /** Such a step happens, and tasks it is not about see what they saw. */
  lemma PageStep(s: Sys, e: Event, n: nat) returns (s': Sys)
    requires Ready(s, n + 1) && Enabled(s, e) && AtPage(e)
    ensures Apply(s, e) == Next(s', false) && (!e.Share? ==> Ready(s', n)) && SysInv(s') && s'.tasks == s.tasks
    ensures EagerStep(Meaning(s), e, Meaning(s'), false)
    ensures forall t :: (Small(s, t) ==> Small(s', t)) && (e.TakePage? || e.t != t ==> Keeps(s, s', t))
  {
    hide SysInv, EagerStep, Meaning, Shape, FreePages, ViewAt, Inside, Apply, Enabled;
    StepUses(s, e);
    s' := Apply(s, e).sys;
    forall t ensures (Small(s, t) ==> Small(s', t)) && (e.TakePage? || e.t != t ==> Keeps(s, s', t)) {
      if Small(s, t) {
        SmallPage(s, t);
        SmallPage(s', t);
        if e.TakePage? || e.t != t { OthersAt(Meaning(s), e, Meaning(s'), t); }
      }
    }
  }

  /** A page is taken; it is zero. */
  lemma Take(s: Sys, n: nat) returns (f: nat, s': Sys)
    requires Ready(s, n + 1)
    ensures Enabled(s, TakePage) && Apply(s, TakePage) == Next(s', false) && Ready(s', n) && s'.tasks == s.tasks
    ensures Spare(s', f) && f in Meaning(s').pages && Meaning(s').pages[f] == ZeroPage()
    ensures Keeps(s, s', 1) && Keeps(s, s', 3)
  {
    hide SysInv, Meaning, Shape, FreePages, FreeFrame, ViewAt;
    ShapeOf(s);
    s' := PageStep(s, TakePage, n);
    f := FreeFrame(s.mem);
    HasPage(s.mem);
    Taken(s);
  }

  lemma Taken(s: Sys)
    requires SysInv(s) && Shape(s.mem) && FreeFrame(s.mem) != 0
    ensures var (f, r) := (FreeFrame(s.mem), Apply(s, TakePage));
            r.Next? && SysInv(r.sys) && Spare(r.sys, f) && f in Meaning(r.sys).pages
            && Meaning(r.sys).pages[f] == ZeroPage()
  {
    TakePageStep(s);
    MeaningTasks(Apply(s, TakePage).sys);
    forall t | t in s.tasks ensures s.tasks[t].page in s.held { assert GoodTask(s, t); }
  }

  /** Task 1 gets a page. */
  lemma Give(s: Sys, f: nat, n: nat) returns (s': Sys)
    requires Ready(s, n + 1) && Spare(s, f) && Small(s, 1) && PageOfTask(s, 1) == Unmapped && f in Meaning(s).pages
    ensures Shape(s.mem) && Enabled(s, GivePage(f, 1, 0, PAGE)) && Apply(s, GivePage(f, 1, 0, PAGE)) == Next(s', false)
    ensures Ready(s', n) && s'.tasks == s.tasks
    ensures Small(s', 1) && PageOfTask(s', 1) == Private(Meaning(s).pages[f], true)
    ensures Keeps(s, s', 3)
  {
    hide SysInv, Meaning, Shape, FreePages, ViewAt, Apply;
    SmallPage(s, 1);
    s' := PageStep(s, GivePage(f, 1, 0, PAGE), n);
    SmallPage(s', 1);
  }

  /** Task 1 stores into it. */
  lemma Store(s: Sys, v: Word, q: seq<Word>, n: nat) returns (s': Sys)
    requires Ready(s, n + 1) && Small(s, 1) && PageOfTask(s, 1) == Private(q, true) && |q| == WORDS
    ensures Shape(s.mem) && Enabled(s, Write(1, 0, PAGE, 0, v)) && Apply(s, Write(1, 0, PAGE, 0, v)) == Next(s', false)
    ensures Ready(s', n) && s'.tasks == s.tasks && Small(s', 1) && PageOfTask(s', 1) == Private(q[0 := v], false)
    ensures Keeps(s, s', 3)
  {
    hide SysInv, Meaning, Shape, FreePages, ViewAt, Apply;
    SmallPage(s, 1);
    s' := PageStep(s, Write(1, 0, PAGE, 0, v), n);
    SmallPage(s', 1);
  }

  /** It forks, and the child's page is verified for writing: the copy counts as clean. */
  lemma ForkAndVerify(s: Sys, q: seq<Word>, n: nat) returns (s1: Sys, s2: Sys)
    requires Ready(s, n + 3) && Small(s, 1) && PageOfTask(s, 1) == Private(q, false) && 2 !in s.tasks
    ensures Shape(s.mem) && Enabled(s, Fork(1, 2)) && Apply(s, Fork(1, 2)) == Next(s1, false) && Ready(s1, n + 1)
    ensures Small(s1, 2) && PageOfTask(s1, 2) == Private(q, false)
    ensures Shape(s1.mem) && Enabled(s1, Verify(2, 0, PAGE)) && Apply(s1, Verify(2, 0, PAGE)) == Next(s2, false)
    ensures Ready(s2, n) && s2.tasks == s1.tasks && Small(s2, 2) && PageOfTask(s2, 2) == Private(q, true)
    ensures Keeps(s, s2, 3)
  {
    hide SysInv, EagerStep, Meaning, Shape, FreePages, FreeFrame, ViewAt, Forked, Apply;
    SmallPage(s, 1);
    ForkBounded(s, 1, 2);
    s1 := Apply(s, Fork(1, 2)).sys;
    ShapeOf(s1);
    HasPage(s1.mem);
    LaunderedAfterFork(s, 1, 2, 0, PAGE);
    SmallPage(s1, 2);
    MeaningKeys(s);
    ForkedAt(Meaning(s), Meaning(s1), 1, 2, 2);
    if Small(s, 3) {
      SmallPage(s, 3);
      SmallPage(s1, 3);
      ForkedAt(Meaning(s), Meaning(s1), 1, 2, 3);
    }
    s2 := PageStep(s1, Verify(2, 0, PAGE), n);
  }

  /** Task 3 is given the page of task 2. */
  lemma Shares(s: Sys, q: seq<Word>) returns (s': Sys)
    requires Ready(s, 1) && Small(s, 2) && PageOfTask(s, 2) == Private(q, true)
    requires Small(s, 3) && PageOfTask(s, 3) == Unmapped
    ensures Shape(s.mem) && Enabled(s, Share(3, 2, 0, PAGE)) && Apply(s, Share(3, 2, 0, PAGE)) == Next(s', false)
    ensures SysInv(s') && Small(s', 3) && PageOfTask(s', 3) == Private(q, true)
  {
    hide SysInv, Meaning, Shape, FreePages, ViewAt, Apply;
    SmallPage(s, 2);
    SmallPage(s, 3);
    s' := PageStep(s, Share(3, 2, 0, PAGE), 0);
    SmallPage(s', 3);
  }

  /** One event of a run, with what becomes of the origins of pages. */
  lemma OneMore(s: Sys, h: History, e: Event, es: seq<Event>, s': Sys)
    requires SysInv(s) && Faithful(Meaning(s), h) && Enabled(s, e) && Apply(s, e) == Next(s', false)
    ensures SysInv(s') && Faithful(Meaning(s'), Recorded(Meaning(s), e, false, h))
    ensures NeverLaunders(s, h, [e] + es) <==>
              && !Launders(Meaning(s), e, Meaning(s'), h)
              && NeverLaunders(s', Recorded(Meaning(s), e, false, h), es)
    ensures Final(s, [e] + es) == Final(s', es)
  {
    hide SysInv, Meaning, Apply, Enabled, Faithful, Recorded, Launders, Shape;
    HistoryStep(s, e, h);
    assert ([e] + es)[1..] == es;
  }

  /** The page of task 1 has been stored into. */
  ghost predicate Stored(h: History, t: nat) { (Block(t, 0), PAGE) in h && h[(Block(t, 0), PAGE)].stored }

  lemma GiveAndStore(a: Spaces, a': Spaces, f: nat, v: Word, h: History)
    requires f in a.pages
    ensures Stored(Recorded(a', Write(1, 0, PAGE, 0, v), false, Recorded(a, GivePage(f, 1, 0, PAGE), false, h)), 1)
  {
  }

  lemma ForkKeepsStored(a: Spaces, h: History)
    requires Stored(h, 1)
    ensures Stored(Recorded(a, Fork(1, 2), false, h), 2)
  {
    assert Block(1, 0) == 16 && Block(2, 0) == 32;
    assert OriginOf(h, 1, 2, (32, PAGE)) == (16, PAGE);
  }

  lemma VerifyLaunders(s: Sys, s': Sys, q: seq<Word>, h: History)
    requires SysInv(s) && SysInv(s') && Small(s, 2) && Small(s', 2) && Stored(h, 2)
    requires PageOfTask(s, 2) == Private(q, false) && PageOfTask(s', 2) == Private(q, true)
    ensures Launders(Meaning(s), Verify(2, 0, PAGE), Meaning(s'), h)
  {
    hide SysInv, Meaning, ViewAt, Shape;
    SmallPage(s, 2);
    SmallPage(s', 2);
  }

  lemma NoOrigins(a: Spaces)
    ensures Faithful(a, map[])
  {
  }

  lemma NothingMore(s: Sys)
    requires SysInv(s)
    ensures Final(s, []) == s
  {
  }

  /** From where task 1 has stored into its page. */
  lemma SecondHalf(s: Sys, q: seq<Word>, h: History)
    requires Ready(s, 4) && Small(s, 1) && Small(s, 3) && 2 !in s.tasks
    requires PageOfTask(s, 1) == Private(q, false) && PageOfTask(s, 3) == Unmapped
    requires Faithful(Meaning(s), h) && Stored(h, 1)
    ensures var es := [Fork(1, 2), Verify(2, 0, PAGE), Share(3, 2, 0, PAGE)];
            && !NeverLaunders(s, h, es)
            && Small(Final(s, es), 3) && PageOfTask(Final(s, es), 3) == Private(q, true)
  {
    hide SysInv, Meaning, Shape, FreePages, ViewAt, Apply, Enabled, Recorded, Faithful, Launders, NeverLaunders, Final,
         PageOfTask, Stored;
    var s1, s2 := ForkAndVerify(s, q, 1);
    var h1 := Recorded(Meaning(s), Fork(1, 2), false, h);
    ForkKeepsStored(Meaning(s), h);
    var (e1, e2, e3) := (Fork(1, 2), Verify(2, 0, PAGE), Share(3, 2, 0, PAGE));
    OneMore(s, h, e1, [e2, e3], s1);
    VerifyLaunders(s1, s2, q, h1);
    OneMore(s1, h1, e2, [e3], s2);
    var s3 := Shares(s2, q);
    OneMore(s2, Recorded(Meaning(s1), e2, false, h1), e3, [], s3);
    NothingMore(s3);
    assert [e1, e2, e3] == [e1] + [e2, e3] && [e2, e3] == [e2] + [e3] && [e3] == [e3] + [];
  }

  function Run(f: nat, v: Word): seq<Event> {
    [Fork(0, 3), Fork(0, 1), TakePage, GivePage(f, 1, 0, PAGE), Write(1, 0, PAGE, 0, v),
     Fork(1, 2), Verify(2, 0, PAGE), Share(3, 2, 0, PAGE)]
  }

  /** From where task 1 gets its page. */
  lemma FromTake(s: Sys, v: Word, h: History) returns (f: nat)
    requires Ready(s, 7) && Small(s, 1) && Small(s, 3) && 2 !in s.tasks
    requires PageOfTask(s, 1) == Unmapped && PageOfTask(s, 3) == Unmapped && Faithful(Meaning(s), h)
    ensures var es := Run(f, v)[2..];
            && !NeverLaunders(s, h, es)
            && Small(Final(s, es), 3) && PageOfTask(Final(s, es), 3) == Private(ZeroPage()[0 := v], true)
  {
    hide SysInv, Meaning, Shape, FreePages, ViewAt, Apply, Enabled, Recorded, Faithful, Launders, NeverLaunders, Final,
         PageOfTask, Spare, Stored, Small;
    var s1: Sys;
    f, s1 := Take(s, 6);
    var s2 := Give(s1, f, 5);
    var s3 := Store(s2, v, ZeroPage(), 4);
    var es3 := [Fork(1, 2), Verify(2, 0, PAGE), Share(3, 2, 0, PAGE)];
    var es2 := [Write(1, 0, PAGE, 0, v)] + es3;
    var es1 := [GivePage(f, 1, 0, PAGE)] + es2;
    assert Run(f, v)[2..] == [TakePage] + es1;
    OneMore(s, h, TakePage, es1, s1);
    var h1 := Recorded(Meaning(s), TakePage, false, h);
    OneMore(s1, h1, GivePage(f, 1, 0, PAGE), es2, s2);
    var h2 := Recorded(Meaning(s1), GivePage(f, 1, 0, PAGE), false, h1);
    OneMore(s2, h2, Write(1, 0, PAGE, 0, v), es3, s3);
    GiveAndStore(Meaning(s1), Meaning(s2), f, v, h1);
    SecondHalf(s3, ZeroPage()[0 := v], Recorded(Meaning(s2), Write(1, 0, PAGE, 0, v), false, h2));
  }

  /** Tasks 1 and 3 run the same program; task 1 gets a page and stores v into it, forks, and the child has the page
      verified for writing. Task 3, which is to get the page of the file, is given the child's: the one with v. */
  lemma StoredPageShared(s: Sys, v: Word) returns (f: nat)
    requires Boot(s) && FreePages(s.mem.cnt) >= 11
    ensures SysInv(s) && Faithful(Meaning(s), map[]) && !NeverLaunders(s, map[], Run(f, v))
    ensures var t := Final(s, Run(f, v)); Small(t, 3) && PageOfTask(t, 3) == Private(ZeroPage()[0 := v], true)
  {
    hide *;
    BootReady(s);
    var s1, s2 := TwoForks(s);
    var h1 := Recorded(Meaning(s), Fork(0, 3), false, map[]);
    var h2 := Recorded(Meaning(s1), Fork(0, 1), false, h1);
    f := FromFork(s, s1, s2, v, h1, h2);
  }

  lemma BootReady(s: Sys)
    requires Boot(s)
    ensures SysInv(s) && Faithful(Meaning(s), map[]) && Shape(s.mem) && s.tasks == map[]
  {
    BootInv(s);
    NoOrigins(Meaning(s));
  }

  lemma TwoForks(s: Sys) returns (s1: Sys, s2: Sys)
    requires SysInv(s) && Shape(s.mem) && FreePages(s.mem.cnt) >= 11 && s.tasks == map[]
    ensures Enabled(s, Fork(0, 3)) && Apply(s, Fork(0, 3)) == Next(s1, false)
    ensures SysInv(s1) && Shape(s1.mem) && Enabled(s1, Fork(0, 1)) && Apply(s1, Fork(0, 1)) == Next(s2, false)
    ensures Ready(s2, 7) && Small(s2, 1) && Small(s2, 3) && 2 !in s2.tasks
    ensures PageOfTask(s2, 1) == Unmapped && PageOfTask(s2, 3) == Unmapped
  {
    hide SysInv, Meaning, Shape, FreePages, ViewAt, Apply, Enabled, PageOfTask, Small;
    s1 := FirstFork(s, 3, 9);
    s2 := FirstFork(s1, 1, 7);
  }

  /** The two forks of task 0 come first. */
  lemma FromFork(s: Sys, s1: Sys, s2: Sys, v: Word, h1: History, h2: History) returns (f: nat)
    requires SysInv(s) && Faithful(Meaning(s), map[])
    requires Enabled(s, Fork(0, 3)) && Apply(s, Fork(0, 3)) == Next(s1, false)
    requires SysInv(s1) && Enabled(s1, Fork(0, 1)) && Apply(s1, Fork(0, 1)) == Next(s2, false)
    requires h1 == Recorded(Meaning(s), Fork(0, 3), false, map[]) && h2 == Recorded(Meaning(s1), Fork(0, 1), false, h1)
    requires Ready(s2, 7) && Small(s2, 1) && Small(s2, 3) && 2 !in s2.tasks
    requires PageOfTask(s2, 1) == Unmapped && PageOfTask(s2, 3) == Unmapped
    ensures !NeverLaunders(s, map[], Run(f, v))
    ensures var t := Final(s, Run(f, v)); Small(t, 3) && PageOfTask(t, 3) == Private(ZeroPage()[0 := v], true)
  {
    hide SysInv, Meaning, Shape, FreePages, ViewAt, Apply, Enabled, Recorded, Faithful, Launders, NeverLaunders, Final,
         PageOfTask, Small;
    OneMore(s, map[], Fork(0, 3), [], s1);
    OneMore(s1, h1, Fork(0, 1), [], s2);
    f := FromTake(s2, v, h2);
    var es := Run(f, v)[2..];
    OneMore(s, map[], Fork(0, 3), [Fork(0, 1)] + es, s1);
    OneMore(s1, h1, Fork(0, 1), es, s2);
    assert Run(f, v) == [Fork(0, 3)] + ([Fork(0, 1)] + es);
  }

  lemma {:induction false} NoneTaken(cnt: seq<nat>)
    requires forall k :: 0 <= k < |cnt| ==> cnt[k] == 0
    ensures FreePages(cnt) == |cnt|
  {
    if cnt != [] { NoneTaken(cnt[..|cnt| - 1]); }
  }

  /** There is such a run: 16 MB, everything above the low megabyte free. */
  lemma ItHappens(v: Word) returns (s: Sys, f: nat)
    ensures Boot(s) && SysInv(s) && Faithful(Meaning(s), map[]) && !AllPristine(s, map[], Run(f, v))
    ensures var t := Final(s, Run(f, v)); Small(t, 3) && PageOfTask(t, 3) == Private(ZeroPage()[0 := v], true)
  {
    hide SysInv, Meaning, FreePages, NeverLaunders, AllPristine, Final, PageOfTask, Small, Faithful;
    s := BootExists(LOW);
    BootFrees(s);
    f := StoredPageShared(s, v);
    CleanIffNotLaundered(s, Run(f, v));
  }

  lemma BootFrees(s: Sys)
    requires Boot(s) && s.start == LOW && |s.mem.ram| == LOW + PAGING_PAGES
    ensures FreePages(s.mem.cnt) == PAGING_PAGES
  {
    forall k | 0 <= k < |s.mem.cnt| ensures s.mem.cnt[k] == 0 { assert Count(s.mem, k + LOW) == 0; }
    NoneTaken(s.mem.cnt);
  }
}

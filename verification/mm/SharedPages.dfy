/** Which pages two tasks of one program may share (try_to_share, linux-0.11/mm/memory.c:292-334): clean ones, which
    are meant to be as they were brought in. They are, unless write_verify has copied a page that had been written. */
module SharedPages {
  import opened Basics
  import opened PageTables
  import opened PagingInvariant
  import opened PagingSteps
  import opened PagingTables
  import opened EagerSpaces
  import opened CopyOnWrite

  // ---- When sharing succeeds ----

  /** The page is shared if and only if it is there, has not been written through this entry, lies above the low
      megabyte and within memory, and there is a table for it in the other task or a page to make one of. */
  lemma SharedExactly(m: Mem, held: set<nat>, start: nat, fd: nat, td: nat, i: nat)
    requires Inv(m, held, start) && IsUserDir(fd) && IsUserDir(td) && i < WORDS
    requires fd != td && fd % DIRS_PER_TASK == td % DIRS_PER_TASK && Target(m, Pte(td, i)) == -1
    ensures var r := TryToShare(m, fd, td, i);
            (r.Shared? && r.ok) <==>
              && DirPresent(m, fd) && Entry(m, fd, i).present && !Entry(m, fd, i).dirty
              && LOW <= Entry(m, fd, i).frame < |m.ram|
              && (DirPresent(m, td) || exists k :: 0 <= k < PAGING_PAGES && m.cnt[k] == 0)
  {
    TryToShareInv(m, held, start, fd, td, i);
    if Target(m, Pte(fd, i)) >= 0 { assert GoodTarget(m, held, start, Pte(fd, i)); }
  }

  /** After write_verify a page that is there can be written. */
  lemma VerifyWritable(s: Sys, t: nat, k: nat, i: nat)
    requires SysInv(s) && Enabled(s, Verify(t, k, i)) && ViewAt(s.mem, Block(t, k), i) != Unmapped
    ensures var r := Apply(s, Verify(t, k, i));
            r.Next? && Shape(r.sys.mem) && (!r.full ==> Writable(r.sys.mem, Pte(Block(t, k), i)))
  {
    BlockIsInside(s, t, k, i);
    var x := Pte(Block(t, k), i);
    if !Writable(s.mem, x) { var s' := UnprotectStep(s, x.d, i); }
  }

  // ---- Where pages come from ----

  /** The page as it was brought in, and whether it has been stored into since, by its task or by one from which it
      came by fork or sharing. */
  datatype Origin = Origin(page: seq<Word>, stored: bool)

  type History = map<(nat, nat), Origin>

  ghost function ForkedOrigins(h: History, p: nat, c: nat): (r: History)
    ensures forall q :: q in r <==> q in AllPages() && OriginOf(h, p, c, q) in h
    ensures forall q :: q in r ==> r[q] == h[OriginOf(h, p, c, q)]
  {
    map q: (nat, nat) | q in AllPages() && OriginOf(h, p, c, q) in h :: h[OriginOf(h, p, c, q)]
  }

  /** The page that q is or was copied from. */
  function OriginOf(h: History, p: nat, c: nat, q: (nat, nat)): (nat, nat) {
    if q.0 / DIRS_PER_TASK != c then q else if p == 0 then (0, 0) else (Block(p, q.0 % DIRS_PER_TASK), q.1)
  }

  function Without(h: History, t: nat): (r: History)
    ensures forall q :: q in r <==> q in h && q.0 / DIRS_PER_TASK != t
    ensures forall q :: q in r ==> r[q] == h[q]
  {
    map q | q in h && q.0 / DIRS_PER_TASK != t :: h[q]
  }

  /** What becomes of the origins; only events count, and what pages hold when they are given. */
  ghost function Recorded(a: Spaces, e: Event, full: bool, h: History): History {
    if full then h
    else match e
      case Fork(p, c) => ForkedOrigins(h, p, c)
      case Exit(t) => Without(h, t)
      case Exec(t, _, _) => Without(h, t)
      case GivePage(f, t, k, i) => if f in a.pages then h[(Block(t, k), i) := Origin(a.pages[f], false)] else h
      case Share(t, p, k, i) =>
        var (from, to) := ((Block(p, k), i), (Block(t, k), i));
        if from in h && from in a.view && a.view[from].Private? && a.view[from].clean then h[to := h[from]]
        else h - {to}
      case Write(t, k, i, _, _) =>
        var q := (Block(t, k), i); if q in h then h[q := h[q].(stored := true)] else h
      case _ => h
  }

  /** A page not stored into is as it was brought in, and one marked as written has been stored into. */
  ghost predicate Faithful(a: Spaces, h: History) {
    forall q :: q in h ==> && IsPage(q.0, q.1) && q in a.view && a.view[q].Private?
                           && (!h[q].stored ==> a.view[q].page == h[q].page)
                           && (!a.view[q].clean ==> h[q].stored)
  }

  /** Clean pages have not been stored into. */
  ghost predicate Pristine(a: Spaces, h: History) {
    forall q :: q in h && q in a.view && a.view[q].Private? && a.view[q].clean ==> !h[q].stored
  }

  /** write_verify makes a clean copy of a page that has been stored into. */
  ghost predicate Launders(a: Spaces, e: Event, a': Spaces, h: History) {
    && e.Verify?
    && var q := (Block(e.t, e.k), e.i);
       && q in h && h[q].stored && q in a.view && a.view[q].Private? && !a.view[q].clean
       && q in a'.view && a'.view[q].Private? && a'.view[q].clean
  }

  /** Pages are addressed within their task, and a page is given or shared only where there was none. */
  ghost predicate Proper(a: Spaces, e: Event, h: History) {
    match e
    case Fork(p, c) => p != c && 1 <= c < NR_TASKS && p < NR_TASKS
    case GivePage(_, t, k, i) => IsPage(Block(t, k), i) && (Block(t, k), i) !in h
    case Share(t, p, k, i) => IsPage(Block(t, k), i) && IsPage(Block(p, k), i) && (Block(t, k), i) !in h
    case _ => true
  }

  lemma ForkOrigin(a: Spaces, p: nat, c: nat, q: (nat, nat), h: History)
    requires p != c && 1 <= c < NR_TASKS && p < NR_TASKS && a.view.Keys == AllPages()
    requires q in ForkedOrigins(h, p, c) && Faithful(a, h)
    ensures q in Forked(a.view, p, c) && OriginOf(h, p, c, q) in a.view
    ensures Forked(a.view, p, c)[q] == a.view[OriginOf(h, p, c, q)]
  {
  }

  /** A fork copies pages with all that is known of them. */
  lemma ForkHistory(a: Spaces, a': Spaces, p: nat, c: nat, h: History)
    requires EagerStep(a, Fork(p, c), a', false) && Faithful(a, h) && a.view.Keys == AllPages()
    requires p != c && 1 <= c < NR_TASKS && p < NR_TASKS
    ensures Faithful(a', ForkedOrigins(h, p, c))
    ensures Pristine(a, h) ==> Pristine(a', ForkedOrigins(h, p, c))
  {
    var h' := ForkedOrigins(h, p, c);
    forall q | q in h'
      ensures q in a'.view && a'.view[q] == a.view[OriginOf(h, p, c, q)] && h'[q] == h[OriginOf(h, p, c, q)]
    {
      ForkOrigin(a, p, c, q, h);
    }
    hide OriginOf, ForkedOrigins, Forked, EagerStep;
  }

  /** So does an exit, or exec, for the other tasks. */
  lemma EmptyHistory(a: Spaces, a': Spaces, t: nat, h: History)
    requires a'.view == Emptied(a.view, t) && Faithful(a, h)
    ensures Faithful(a', Without(h, t)) && (Pristine(a, h) ==> Pristine(a', Without(h, t)))
  {
  }

  /** One page gets a new view, and its origin is that of the new view. */
  lemma ViewHistory(a: Spaces, a': Spaces, q: (nat, nat), o: Origin, h: History)
    requires Faithful(a, h) && IsPage(q.0, q.1) && q in a'.view && a'.view == a.view[q := a'.view[q]]
    requires a'.view[q].Private? && (!o.stored ==> a'.view[q].page == o.page) && (!a'.view[q].clean ==> o.stored)
    ensures Faithful(a', h[q := o])
    ensures Pristine(a, h) ==> (Pristine(a', h[q := o]) <==> !(a'.view[q].clean && o.stored))
  {
  }

  lemma SameHistory(a: Spaces, a': Spaces, q: (nat, nat), h: History)
    requires Faithful(a, h) && (a'.view == a.view || (q !in h && q in a'.view && a'.view == a.view[q := a'.view[q]]))
    ensures Faithful(a', h) && (Pristine(a, h) ==> Pristine(a', h))
  {
  }

  /** The steps that change one page at most. */
  lemma GiveHistory(a: Spaces, e: Event, a': Spaces, h: History)
    requires EagerStep(a, e, a', false) && Faithful(a, h) && Proper(a, e, h) && e.GivePage?
    ensures Faithful(a', Recorded(a, e, false, h)) && (Pristine(a, h) ==> Pristine(a', Recorded(a, e, false, h)))
  {
    hide Faithful, Pristine;
    ViewHistory(a, a', (Block(e.t, e.k), e.i), Origin(a.pages[e.f], false), h);
  }

  lemma ShareHistory(a: Spaces, e: Event, a': Spaces, h: History)
    requires EagerStep(a, e, a', false) && Faithful(a, h) && Proper(a, e, h) && e.Share?
    ensures Faithful(a', Recorded(a, e, false, h)) && (Pristine(a, h) ==> Pristine(a', Recorded(a, e, false, h)))
  {
    hide Faithful, Pristine;
    var (from, to) := ((Block(e.p, e.k), e.i), (Block(e.t, e.k), e.i));
    PageOf(a, h, from);
    assert h - {to} == h;
    if a.view[from].Private? && a.view[from].clean && from in h {
      ViewHistory(a, a', to, h[from], h);
    } else {
      SameHistory(a, a', to, h);
    }
  }

  lemma WriteHistory(a: Spaces, e: Event, a': Spaces, h: History)
    requires EagerStep(a, e, a', false) && Faithful(a, h) && e.Write?
    ensures Faithful(a', Recorded(a, e, false, h)) && (Pristine(a, h) ==> Pristine(a', Recorded(a, e, false, h)))
  {
    hide Faithful, Pristine;
    var q := (Block(e.t, e.k), e.i);
    PageOf(a, h, q);
    if q in h { ViewHistory(a, a', q, h[q].(stored := true), h); } else { SameHistory(a, a', q, h); }
  }

  lemma VerifyHistory(a: Spaces, e: Event, a': Spaces, h: History)
    requires EagerStep(a, e, a', false) && Faithful(a, h) && e.Verify?
    ensures Faithful(a', h) && (Pristine(a, h) ==> (Pristine(a', h) <==> !Launders(a, e, a', h)))
  {
    hide Faithful, Pristine;
    var q := (Block(e.t, e.k), e.i);
    PageOf(a, h, q);
    if q in h && a'.view != a.view {
      assert h[q := h[q]] == h;
      ViewHistory(a, a', q, h[q], h);
    } else {
      SameHistory(a, a', q, h);
    }
  }

  lemma PageOf(a: Spaces, h: History, q: (nat, nat))
    requires Faithful(a, h)
    ensures q in h ==> IsPage(q.0, q.1) && q in a.view && a.view[q].Private?
    ensures q in h && Pristine(a, h) && a.view[q].clean ==> !h[q].stored
    ensures q in h && !h[q].stored ==> a.view[q].page == h[q].page
    ensures q in h && !a.view[q].clean ==> h[q].stored
  {
  }

  lemma FaithfulStep(a: Spaces, e: Event, a': Spaces, full: bool, h: History)
    requires EagerStep(a, e, a', full) && Faithful(a, h) && Proper(a, e, h) && a.view.Keys == AllPages()
    ensures Faithful(a', Recorded(a, e, full, h))
    ensures Pristine(a, h) ==> (Pristine(a', Recorded(a, e, full, h)) <==> full || !Launders(a, e, a', h))
  {
    hide Faithful, Pristine, Forked, ForkedOrigins, OriginOf, Emptied, Without;
    if !full {
      if e.Fork? {
        ForkHistory(a, a', e.parent, e.child, h);
      } else if e.Exit? || e.Exec? {
        EmptyHistory(a, a', e.t, h);
      } else if e.GivePage? {
        GiveHistory(a, e, a', h);
      } else if e.Share? {
        ShareHistory(a, e, a', h);
      } else if e.Write? {
        WriteHistory(a, e, a', h);
      } else if e.Verify? {
        VerifyHistory(a, e, a', h);
      } else {
        SameHistory(a, a', (0, 0), h);
      }
    }
  }

  // ---- Runs ----

  lemma HistoryStep(s: Sys, e: Event, h: History)
    requires SysInv(s) && Enabled(s, e) && Faithful(Meaning(s), h)
    ensures var r := Apply(s, e);
            && r.Next? && SysInv(r.sys) && EagerStep(Meaning(s), e, Meaning(r.sys), r.full)
            && Proper(Meaning(s), e, h) && Faithful(Meaning(r.sys), Recorded(Meaning(s), e, r.full, h))
            && (Pristine(Meaning(s), h) ==>
                  (Pristine(Meaning(r.sys), Recorded(Meaning(s), e, r.full, h))
                   <==> r.full || !Launders(Meaning(s), e, Meaning(r.sys), h)))
  {
    hide Apply, SysInv, EagerStep, Meaning, Recorded, Faithful, Pristine, Launders, Proper;
    StepSound(s, e);
    MeaningKeys(s);
    IsProper(s, e, h);
    var r := Apply(s, e);
    FaithfulStep(Meaning(s), e, Meaning(r.sys), r.full, h);
  }

  lemma IsProper(s: Sys, e: Event, h: History)
    requires SysInv(s) && Enabled(s, e) && Faithful(Meaning(s), h)
    ensures Proper(Meaning(s), e, h)
  {
    hide Meaning, ViewAt, Spare;
    match e
    case Fork(p, c) => if p != 0 { assert GoodTask(s, p); }
    case GivePage(_, t, k, i) =>
      BlockIsInside(s, t, k, i);
      MeaningAt(s, Block(t, k), i);
    case Share(t, p, k, i) =>
      BlockIsInside(s, t, k, i);
      MeaningAt(s, Block(t, k), i);
    case _ =>
  }

  /** In every state of the run the clean pages have not been stored into. */
  ghost predicate AllPristine(s: Sys, h: History, es: seq<Event>)
    requires SysInv(s) && Faithful(Meaning(s), h)
    decreases |es|
  {
    && Pristine(Meaning(s), h)
    && (es == []
        || if Enabled(s, es[0]) then
             HistoryStep(s, es[0], h);
             var r := Apply(s, es[0]);
             AllPristine(r.sys, Recorded(Meaning(s), es[0], r.full, h), es[1..])
           else AllPristine(s, h, es[1..]))
  }

  /** No write_verify of the run makes a clean copy of a page that has been stored into. */
  ghost predicate NeverLaunders(s: Sys, h: History, es: seq<Event>)
    requires SysInv(s) && Faithful(Meaning(s), h)
    decreases |es|
  {
    es == []
    || if Enabled(s, es[0]) then
         HistoryStep(s, es[0], h);
         var r := Apply(s, es[0]);
         && (r.full || !Launders(Meaning(s), es[0], Meaning(r.sys), h))
         && NeverLaunders(r.sys, Recorded(Meaning(s), es[0], r.full, h), es[1..])
       else NeverLaunders(s, h, es[1..])
  }

  lemma {:induction false} PristineIff(s: Sys, h: History, es: seq<Event>)
    requires SysInv(s) && Faithful(Meaning(s), h) && Pristine(Meaning(s), h)
    ensures AllPristine(s, h, es) <==> NeverLaunders(s, h, es)
    decreases |es|
  {
    hide Apply, SysInv, EagerStep, Meaning, Recorded, Faithful, Pristine, Launders, Proper, Enabled, Shape;
    ShapeOf(s);
    if es != [] {
      if Enabled(s, es[0]) {
        HistoryStep(s, es[0], h);
        var r := Apply(s, es[0]);
        var h' := Recorded(Meaning(s), es[0], r.full, h);
        if Pristine(Meaning(r.sys), h') {
          PristineIff(r.sys, h', es[1..]);
        } else {
          assert !AllPristine(r.sys, h', es[1..]);
        }
      } else {
        PristineIff(s, h, es[1..]);
      }
    }
  }

  /** From boot on, over every run: the pages that may be shared, the clean ones, are in every state as they were
      brought in, if and only if no write_verify of the run makes a clean copy of a page that has been stored into. */
  lemma CleanIffNotLaundered(s: Sys, es: seq<Event>)
    requires Boot(s)
    ensures SysInv(s) && Faithful(Meaning(s), map[])
    ensures AllPristine(s, map[], es) <==> NeverLaunders(s, map[], es)
  {
    BootInv(s);
    hide Boot, SysInv, Meaning, AllPristine, NeverLaunders;
    PristineIff(s, map[], es);
  }

  /** In such a state, what a successful share shows is the page as it was brought in, with no store in between, through
      however many forks and shares it came. */
  lemma SharedAsBrought(s: Sys, h: History, t: nat, p: nat, k: nat, i: nat)
    requires SysInv(s) && Enabled(s, Share(t, p, k, i)) && Faithful(Meaning(s), h) && Pristine(Meaning(s), h)
    requires (Block(p, k), i) in h
    ensures var r := Apply(s, Share(t, p, k, i));
            && r.Next? && SysInv(r.sys) && IsPage(Block(t, k), i) && Shape(r.sys.mem)
            && (ViewAt(r.sys.mem, Block(t, k), i) != Unmapped ==>
                  && !h[(Block(p, k), i)].stored
                  && ViewAt(r.sys.mem, Block(t, k), i) == Private(h[(Block(p, k), i)].page, true))
  {
    hide Apply, SysInv, Meaning, EagerStep, Faithful, Pristine, ViewAt, Shape, Inside;
    var e := Share(t, p, k, i);
    StepSound(s, e);
    ShareTarget(s, t, p, k, i);
    var r := Apply(s, e);
    ShapeOf(r.sys);
    MeaningAt(s, Block(t, k), i);
    MeaningAt(r.sys, Block(t, k), i);
    EagerShare(Meaning(s), Meaning(r.sys), r.full, t, p, k, i, h);
  }

  lemma ShareTarget(s: Sys, t: nat, p: nat, k: nat, i: nat)
    requires SysInv(s) && Enabled(s, Share(t, p, k, i))
    ensures IsPage(Block(t, k), i) && ViewAt(s.mem, Block(t, k), i) == Unmapped
  {
    BlockIsInside(s, t, k, i);
  }

  lemma EagerShare(a: Spaces, a': Spaces, full: bool, t: nat, p: nat, k: nat, i: nat, h: History)
    requires EagerStep(a, Share(t, p, k, i), a', full) && Faithful(a, h) && Pristine(a, h) && (Block(p, k), i) in h
    requires (Block(t, k), i) in a.view && a.view[(Block(t, k), i)] == Unmapped
    ensures (Block(t, k), i) in a'.view
    ensures a'.view[(Block(t, k), i)] != Unmapped ==>
              && !h[(Block(p, k), i)].stored
              && a'.view[(Block(t, k), i)] == Private(h[(Block(p, k), i)].page, true)
  {
  }

  // ---- When write_verify makes a clean copy ----

  /** write_verify of a page marked as written leaves it so, unless the entry is read-only, the page has another user,
      and there is a free page for the copy: the copy counts as clean. */
  lemma VerifyCleans(s: Sys, t: nat, k: nat, i: nat)
    requires SysInv(s) && Enabled(s, Verify(t, k, i))
    requires ViewAt(s.mem, Block(t, k), i).Private? && !ViewAt(s.mem, Block(t, k), i).clean
    ensures var (d, v, r) := (Block(t, k), ViewAt(s.mem, Block(t, k), i), Apply(s, Verify(t, k, i)));
            && r.Next? && Shape(r.sys.mem) && DirPresent(s.mem, d) && LOW <= Target(s.mem, Pte(d, i)) < |s.mem.ram|
            && ViewAt(r.sys.mem, d, i) ==
                 if !Entry(s.mem, d, i).rw && Count(s.mem, Target(s.mem, Pte(d, i))) > 1 && FreeFrame(s.mem) != 0
                 then Private(v.page, true) else v
  {
    hide SysInv, UnWriteProtect, Inv, Shape, Meaning, FreeFrame, ViewAt, Unshared;
    BlockIsInside(s, t, k, i);
    ShapeOf(s);
    var d := Block(t, k);
    var x := Pte(d, i);
    PrivateEntry(s.mem, d, i);
    Referred(s, x);
    if !Writable(s.mem, x) {
      var s' := UnprotectStep(s, d, i);
      ShapeOf(s');
      UnWriteProtectFails(s.mem, d, i);
      if UnWriteProtect(s.mem, d, i).Done? { Unprotected(s, s', d, i); }
    }
  }

  lemma Unprotected(s: Sys, s': Sys, d: nat, i: nat)
    requires SysInv(s) && SysInv(s') && IsPage(d, i) && DirPresent(s.mem, d) && Entry(s.mem, d, i).frame < |s.mem.ram|
    requires Meaning(s').view == Meaning(s).view[(d, i) := Unshared(s.mem, d, i)]
    ensures Shape(s'.mem) && ViewAt(s'.mem, d, i) == Unshared(s.mem, d, i)
  {
    hide SysInv, Shape, Meaning, ViewAt, Unshared;
    ShapeOf(s');
    MeaningAt(s', d, i);
  }

  lemma PrivateEntry(m: Mem, d: nat, i: nat)
    requires Shape(m) && IsPage(d, i) && ViewAt(m, d, i).Private?
    ensures DirPresent(m, d) && Entry(m, d, i).present && LOW <= Entry(m, d, i).frame < |m.ram|
    ensures Target(m, Pte(d, i)) == Entry(m, d, i).frame
    ensures ViewAt(m, d, i) == Private(m.ram[Entry(m, d, i).frame], !Entry(m, d, i).dirty)
    ensures var f := Entry(m, d, i).frame;
            Unshared(m, d, i) == Private(m.ram[f], if m.cnt[f - LOW] == 1 then !Entry(m, d, i).dirty else true)
  {
    hide Shape;
  }

  lemma Referred(s: Sys, x: Slot)
    requires SysInv(s) && IsSlot(x) && LOW <= Target(s.mem, x)
    ensures Target(s.mem, x) < |s.mem.ram| && Count(s.mem, Target(s.mem, x)) > 0
  {
    var f := Target(s.mem, x);
    assert GoodTarget(s.mem, s.held, s.start, x);
    assert x in Refs(s.mem, f);
    assert Count(s.mem, f) == |Refs(s.mem, f)| + (if f in s.held then 1 else 0);
  }

  /** un_wp_page needs a page exactly if the old one has other users. */
  lemma UnWriteProtectFails(m: Mem, d: nat, i: nat)
    requires Shape(m) && IsPage(d, i) && DirPresent(m, d) && LOW <= Entry(m, d, i).frame < |m.ram|
    requires m.cnt[Entry(m, d, i).frame - LOW] > 0
    ensures UnWriteProtect(m, d, i).NoMemory? <==> m.cnt[Entry(m, d, i).frame - LOW] != 1 && FreeFrame(m) == 0
  {
    hide Shape, SetPte, Claim, FreeFrame;
  }

  // ---- It happens: after fork ----

  /** Block td of m' uses the page frames that block fd of m uses. */
  ghost predicate SameFrames(m': Mem, td: nat, m: Mem, fd: nat)
    requires Shape(m) && Shape(m') && IsUserDir(td) && IsUserDir(fd)
  {
    forall j :: 0 <= j < WORDS ==> Target(m', Pte(td, j)) == Target(m, Pte(fd, j))
  }

  lemma {:induction false} EntriesFrames(m: Mem, held: set<nat>, start: nat, fd: nat, td: nat, i: nat)
    requires Inv(m, held, start) && IsUserDir(fd) && IsUserDir(td) && i <= WORDS
    requires fd != td && fd % DIRS_PER_TASK == td % DIRS_PER_TASK && DirPresent(m, fd) && DirPresent(m, td)
    requires forall j :: 0 <= j < i ==> Target(m, Pte(td, j)) == Target(m, Pte(fd, j))
    requires forall j :: i <= j < WORDS ==> Target(m, Pte(td, j)) == -1
    ensures var r := CopyEntries(m, fd, td, i); r.Done? && SameFrames(r.mem, td, m, fd)
    decreases WORDS - i
  {
    hide Inv, CopyEntry, ViewAt, SameLow, Shape, Target;
    ShapeOfInv(m, held, start);
    if i < WORDS {
      CopyEntryInv(m, held, start, fd, td, i);
      EntriesFrames(CopyEntry(m, fd, td, i).mem, held, start, fd, td, i + 1);
    }
  }

  lemma DirFrames(m: Mem, held: set<nat>, start: nat, fd: nat, td: nat)
    requires Inv(m, held, start) && IsUserDir(fd) && IsUserDir(td) && !DirPresent(m, td)
    requires fd != td && fd % DIRS_PER_TASK == td % DIRS_PER_TASK
    ensures var r := CopyDir(m, fd, td); r.Done? ==> SameFrames(r.mem, td, m, fd)
  {
    if DirPresent(m, fd) && FreeFrame(m) != 0 {
      NewTableInv(m, held, start, td);
      var m1 := NewTable(m, td, FreeFrame(m));
      forall j | 0 <= j < WORDS
        ensures Target(m1, Pte(td, j)) == -1 && Target(m1, Pte(fd, j)) == Target(m, Pte(fd, j))
      {
        assert Target(m1, Pte(td, j)) == Target(m, Pte(td, j));
      }
      EntriesFrames(m1, held, start, fd, td, 0);
    }
  }

  lemma {:induction false} TablesFrames(m: Mem, held: set<nat>, start: nat, fd: nat, td: nat, n: nat, k: nat)
    requires Inv(m, held, start) && FIRST_DIR <= td && td + n <= WORDS && NoTables(m, td, n)
    requires FIRST_DIR <= fd && fd + n <= WORDS && fd % DIRS_PER_TASK == td % DIRS_PER_TASK
    requires (fd + n <= td || td + n <= fd) && k < n
    ensures var r := CopyTables(m, fd, td, n); r.Done? ==> Shape(r.mem) && SameFrames(r.mem, td + k, m, fd + k)
    decreases n
  {
    hide Inv, SameOutside, SameLow, SameHeld, NoTables, ViewAt, ParentView, CopyDir, CopyTables, Copied, Shape,
         SameFrames, Target;
    ShapeOfInv(m, held, start);
    FirstCopied(m, held, start, fd, td, n);
    var r1 := CopyDir(m, fd, td);
    ShapeOfInv(r1.mem, held, start);
    if r1.Done? {
      NoTablesAfter(m, m, td, n);
      DirFrames(m, held, start, fd, td);
      CopyTablesInv(r1.mem, held, start, fd + 1, td + 1, n - 1);
      var r := CopyTables(r1.mem, fd + 1, td + 1, n - 1);
      ShapeOfInv(r.mem, held, start);
      if r.Done? {
        if k == 0 {
          FramesStay(r1.mem, r.mem, td + 1, n - 1, td);
          FramesChain(m, r1.mem, r.mem, fd, td);
        } else {
          TablesFrames(r1.mem, held, start, fd + 1, td + 1, n - 1, k - 1);
          FramesStay(m, r1.mem, td, 1, fd + k);
          FramesBack(m, r1.mem, r.mem, fd + k, td + k);
        }
      }
    }
  }

  lemma FramesStay(m: Mem, m': Mem, first: nat, n: nat, d: nat)
    requires Shape(m) && Shape(m') && SameOutside(m, m', first, n) && IsUserDir(d) && !Within(d, first, n)
    ensures SameFrames(m', d, m, d)
  {
    hide Shape, ViewAt, Target;
    forall j | 0 <= j < WORDS ensures Target(m', Pte(d, j)) == Target(m, Pte(d, j)) {
      assert !Within(Pte(d, j).d, first, n);
    }
  }

  lemma FramesChain(m: Mem, m1: Mem, m2: Mem, fd: nat, td: nat)
    requires Shape(m) && Shape(m1) && Shape(m2) && IsUserDir(fd) && IsUserDir(td)
    requires SameFrames(m1, td, m, fd) && SameFrames(m2, td, m1, td)
    ensures SameFrames(m2, td, m, fd)
  {
    hide Shape, Target;
  }

  lemma FramesBack(m: Mem, m1: Mem, m2: Mem, fd: nat, td: nat)
    requires Shape(m) && Shape(m1) && Shape(m2) && IsUserDir(fd) && IsUserDir(td)
    requires SameFrames(m1, fd, m, fd) && SameFrames(m2, td, m1, fd)
    ensures SameFrames(m2, td, m, fd)
  {
    hide Shape, Target;
  }

  /** After fork from a task other than 0 the child maps the page frames that its parent maps. */
  lemma ForkFrames(s: Sys, p: nat, c: nat, k: nat, i: nat)
    requires SysInv(s) && Enabled(s, Fork(p, c)) && p != 0 && !Apply(s, Fork(p, c)).Crash? && !Apply(s, Fork(p, c)).full
    requires k < Blocks(s.tasks[p].data) && i < WORDS
    ensures p < NR_TASKS && k < DIRS_PER_TASK && Shape(Apply(s, Fork(p, c)).sys.mem)
    ensures var m := Apply(s, Fork(p, c)).sys.mem;
            Target(m, Pte(Block(c, k), i)) == Target(s.mem, Pte(Block(p, k), i)) == Target(m, Pte(Block(p, k), i))
  {
    hide SysInv, CopyMem, Meaning, Inv, Shape, Claim, DoFork, FreeFrame, SameOutside, SameLow, SameHeld, Copied,
         SameViews, Target, ViewAt, CopyTables, NoTables, SameFrames;
    ShapeOf(s);
    TaskGood(s, p);
    var (f, n) := (FreeFrame(s.mem), Blocks(s.tasks[p].data));
    BlocksBound(s.tasks[p].data);
    ForkHasPage(s, p, c);
    var r := ForkTables(s, p, c, n);
    ShapeOfInv(r.mem, s.held + {f}, s.start);
    DoForkCases(s, p, c, r);
    if r.Done? {
      ForkCopies(s, p, c, n, k);
      FrameAt(r.mem, Block(c, k), s.mem, Block(p, k), i);
      FramesStay(s.mem, r.mem, Block(c, 0), n, Block(p, k));
      FrameAt(r.mem, Block(p, k), s.mem, Block(p, k), i);
    } else {
      ForkFailed(s, r.mem, f);
    }
  }

  lemma FrameAt(m': Mem, td: nat, m: Mem, fd: nat, i: nat)
    requires Shape(m) && Shape(m') && IsUserDir(td) && IsUserDir(fd) && SameFrames(m', td, m, fd) && i < WORDS
    ensures Target(m', Pte(td, i)) == Target(m, Pte(fd, i))
  {
    hide Shape, Target;
  }

  lemma ForkHasPage(s: Sys, p: nat, c: nat)
    requires SysInv(s) && Enabled(s, Fork(p, c)) && !Apply(s, Fork(p, c)).Crash? && !Apply(s, Fork(p, c)).full
    ensures FreeFrame(s.mem) != 0
  {
  }

  lemma ForkCopies(s: Sys, p: nat, c: nat, n: nat, k: nat)
    requires SysInv(s) && 1 <= c < NR_TASKS && c !in s.tasks && 1 <= p < NR_TASKS && c != p && k < n <= DIRS_PER_TASK
    requires FreeFrame(s.mem) != 0
    ensures Shape(Claim(s.mem, FreeFrame(s.mem)))
    ensures var r := CopyMem(Claim(s.mem, FreeFrame(s.mem)), Block(p, 0), Block(c, 0), n);
            r.Done? ==> Shape(r.mem) && SameFrames(r.mem, Block(c, k), s.mem, Block(p, k))
  {
    hide CopyTables, Inv, Claim, NoTables, Shape, SysInv, FreeTables, Target, FreeFrame, SameFrames, ViewAt, CopyMem;
    MemInv(s);
    var f := FreeFrame(s.mem);
    ClaimInv(s.mem, s.held, s.start);
    var m0 := Claim(s.mem, f);
    ShapeOfInv(m0, s.held + {f}, s.start);
    NoChildTables(s, m0, c, n);
    TablesFrames(m0, s.held + {f}, s.start, Block(p, 0), Block(c, 0), n, k);
    assert Block(p, 0) + k == Block(p, k) && Block(c, 0) + k == Block(c, k);
    CopyMemDone(m0, Block(p, 0), Block(c, 0), n);
    FramesClaimed(s.mem, m0, CopyMem(m0, Block(p, 0), Block(c, 0), n), Block(p, k), Block(c, k));
  }

  lemma MemInv(s: Sys)
    requires SysInv(s)
    ensures Inv(s.mem, s.held, s.start) && Shape(s.mem)
  {
  }

  lemma CopyMemDone(m: Mem, fd: nat, td: nat, n: nat)
    requires Shape(m) && FIRST_DIR <= td && td + n <= WORDS && FIRST_DIR <= fd && fd + n <= WORDS
    ensures CopyMem(m, fd, td, n).Done? ==> CopyTables(m, fd, td, n) == CopyMem(m, fd, td, n)
  {
    hide CopyTables, FreeTables, Shape;
  }

  lemma FramesClaimed(m: Mem, m0: Mem, r: Outcome, fd: nat, td: nat)
    requires Shape(m) && Shape(m0) && IsUserDir(fd) && IsUserDir(td)
    requires forall x :: IsSlot(x) ==> Target(m0, x) == Target(m, x)
    requires r.Done? ==> Shape(r.mem) && SameFrames(r.mem, td, m0, fd)
    ensures r.Done? ==> SameFrames(r.mem, td, m, fd)
  {
    hide Shape, Target;
  }

  /** A page that task p has stored into, a fork, and a write_verify by the child: the child's page holds what p has
      stored and counts as clean, so that a third task of the program may be given it. */
  lemma LaunderedAfterFork(s: Sys, p: nat, c: nat, k: nat, i: nat)
    requires SysInv(s) && Enabled(s, Fork(p, c)) && p != 0 && Inside(s, p, k, i)
    requires ViewAt(s.mem, Block(p, k), i).Private? && !ViewAt(s.mem, Block(p, k), i).clean
    requires var r := Apply(s, Fork(p, c)); r.Next? && !r.full && Shape(r.sys.mem) && FreeFrame(r.sys.mem) != 0
    ensures var s1 := Apply(s, Fork(p, c)).sys;
            && SysInv(s1) && Enabled(s1, Verify(c, k, i))
            && var r := Apply(s1, Verify(c, k, i));
               && r.Next? && !r.full && Shape(r.sys.mem) && IsPage(Block(c, k), i)
               && ViewAt(r.sys.mem, Block(c, k), i) == Private(ViewAt(s.mem, Block(p, k), i).page, true)
  {
    hide SysInv, Meaning, Shape, ViewAt, FreeFrame, Target, Count, Blocks, EagerStep, Forked;
    StepSound(s, Fork(p, c));
    var s1 := Apply(s, Fork(p, c)).sys;
    ForkFrames(s, p, c, k, i);
    ChildLike(s, s1, p, c, k, i);
    PrivateEntry(s1.mem, Block(c, k), i);
    TwoUsers(s1, Pte(Block(p, k), i), Pte(Block(c, k), i));
    VerifyCleans(s1, c, k, i);
    VerifyRoom(s1, c, k, i);
  }

  /** The child's page after fork is the parent's. */
  lemma ChildLike(s: Sys, s1: Sys, p: nat, c: nat, k: nat, i: nat)
    requires SysInv(s) && Enabled(s, Fork(p, c)) && p != 0 && Inside(s, p, k, i)
    requires SysInv(s1) && EagerStep(Meaning(s), Fork(p, c), Meaning(s1), false)
    ensures Shape(s1.mem) && Inside(s1, c, k, i) && IsPage(Block(c, k), i) && IsPage(Block(p, k), i)
    ensures ViewAt(s1.mem, Block(c, k), i) == ViewAt(s.mem, Block(p, k), i)
  {
    hide SysInv, Shape, ViewAt, EagerStep, Meaning, Blocks;
    BlockIsInside(s, p, k, i);
    ShapeOf(s);
    ShapeOf(s1);
    MeaningTasks(s);
    MeaningTasks(s1);
    assert IsPage(Block(c, k), i);
    MeaningAt(s, Block(p, k), i);
    MeaningAt(s, Block(c, k), i);
    MeaningAt(s1, Block(c, k), i);
    ForkedAt(Meaning(s), Meaning(s1), p, c, k, i);
  }

  lemma ForkedAt(a: Spaces, a': Spaces, p: nat, c: nat, k: nat, i: nat)
    requires EagerStep(a, Fork(p, c), a', false) && p != 0 && k < DIRS_PER_TASK
    requires (Block(c, k), i) in a.view && (Block(p, k), i) in a.view
    ensures (Block(c, k), i) in a'.view && a'.view[(Block(c, k), i)] == a.view[(Block(p, k), i)]
    ensures p in a.tasks && c in a'.tasks && a'.tasks[c].alive && a'.tasks[c].data == a.tasks[p].data
  {
    assert Block(c, k) / DIRS_PER_TASK == c && Block(c, k) % DIRS_PER_TASK == k;
  }

  /** A page that two entries map is counted twice at least, and neither may write it. */
  lemma TwoUsers(s: Sys, x: Slot, y: Slot)
    requires SysInv(s) && IsSlot(x) && IsSlot(y) && x != y && Target(s.mem, x) == Target(s.mem, y) >= LOW
    ensures Target(s.mem, y) < |s.mem.ram| && Count(s.mem, Target(s.mem, y)) > 1 && !Writable(s.mem, y)
  {
    var f := Target(s.mem, y);
    assert GoodTarget(s.mem, s.held, s.start, y);
    assert x in Refs(s.mem, f) && y in Refs(s.mem, f);
    assert |Refs(s.mem, f)| > 1 by { SubsetSize({x, y}, Refs(s.mem, f)); }
    assert Count(s.mem, f) == |Refs(s.mem, f)| + (if f in s.held then 1 else 0);
    if Writable(s.mem, y) { WritableIsAlone(s.mem, s.held, s.start, y); }
  }

  lemma VerifyRoom(s: Sys, t: nat, k: nat, i: nat)
    requires SysInv(s) && Enabled(s, Verify(t, k, i)) && FreeFrame(s.mem) != 0
    ensures var r := Apply(s, Verify(t, k, i)); r.Next? && !r.full
  {
    hide Apply, SysInv, Meaning, EagerStep;
    StepSound(s, Verify(t, k, i));
  }
}

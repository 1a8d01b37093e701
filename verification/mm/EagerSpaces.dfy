/** The reference for copy-on-write: every task owns private pages and fork
    copies them all at once. No page tables, no counts, no sharing. */
module EagerSpaces {
  import opened PageTables
  import opened PagingInvariant
  import opened PagingSteps

  const BLOCK := 0x400000          // bytes covered by one directory entry
  const SPACE := 0x4000000         // bytes of linear space per task
  const TASK0_LIMIT := 0xA0000     // 640 kB, the data limit of task 0

  /** Directory entries a segment of `size` bytes needs. */
  function Blocks(size: nat): nat { (size + (BLOCK - 1)) / BLOCK }

  /** Segment limits, the page of the task structure, and whether the task has an address space (is no zombie). */
  datatype Task = Task(code: nat, data: nat, page: nat, alive: bool)

  /** (d, i) is page i of directory entry d; `low` are the readable pages of the
      low megabyte, `pages` those the kernel holds, task structures included. */
  datatype Spaces = Spaces(view: map<(nat, nat), View>, low: map<nat, seq<Word>>, pages: map<nat, seq<Word>>,
      tasks: map<nat, Task>)

  /** What tasks and kernel ask of memory. Pages are named by task, block k and page i. */
  datatype Event =
    | Fork(parent: nat, child: nat)
    | Exit(t: nat)
    | Release(t: nat)
    | Exec(t: nat, code: nat, data: nat)
    | TakePage
    | DropPage(f: nat)
    | FillPage(f: nat, contents: seq<Word>)
    | GivePage(f: nat, t: nat, k: nat, i: nat)
    | Share(t: nat, p: nat, k: nat, i: nat)
    | Verify(t: nat, k: nat, i: nat)
    | Write(t: nat, k: nat, i: nat, j: nat, v: Word)
    | WriteLow(f: nat, j: nat, v: Word)

  function Block(t: nat, k: nat): nat { DIRS_PER_TASK * t + k }

  ghost predicate IsPage(d: nat, i: nat) { IsUserDir(d) && i < WORDS }

  /** The child gets the parent's whole space; task 0 shows 640 kB of low memory. */
  ghost function Forked(a: map<(nat, nat), View>, parent: nat, child: nat): map<(nat, nat), View> {
    map p: (nat, nat) | p in a :: ForkedPage(a, parent, child, p)
  }

  ghost function ForkedPage(a: map<(nat, nat), View>, parent: nat, child: nat, p: (nat, nat)): View
    requires p in a
  {
    var source := (Block(parent, p.0 % DIRS_PER_TASK), p.1);
    if p.0 / DIRS_PER_TASK != child then a[p]
    else if parent == 0 then (if p.0 % DIRS_PER_TASK == 0 && p.1 < KERNEL_ENTRIES then Low(p.1) else Unmapped)
    else if source in a then a[source]
    else Unmapped
  }

  ghost function Emptied(a: map<(nat, nat), View>, t: nat): map<(nat, nat), View> {
    map p: (nat, nat) | p in a :: if p.0 / DIRS_PER_TASK == t then Unmapped else a[p]
  }

  /** Page p as a private page: itself, or a copy of a low page (page 0, the
      page directory, is whatever it happens to be). */
  ghost predicate MadePrivate(a: Spaces, p: (nat, nat), page: seq<Word>)
    requires p in a.view
  {
    match a.view[p]
    case Unmapped => false
    case Private(q, _) => page == q
    case Low(f) => |page| == WORDS && (f in a.low ==> page == a.low[f])
  }

  /** One step of the reference machine. When memory ran out nothing happens. */
  ghost predicate EagerStep(a: Spaces, e: Event, a': Spaces, full: bool) {
    if full then a' == a && !e.Exit? && !e.Release? && !e.Exec? && !e.DropPage? && !e.FillPage? && !e.WriteLow?
    else match e
      case Fork(p, c) =>
        c !in a.tasks && c in a'.tasks && (p != 0 ==> p in a.tasks)
        && a' == Spaces(Forked(a.view, p, c), a.low, a'.pages, a.tasks[c := a'.tasks[c]])
        && AddsPage(a.pages, a'.pages, a'.tasks[c].page)
        && a'.tasks[c].alive && (p != 0 ==> a'.tasks[c] == a.tasks[p].(page := a'.tasks[c].page))
      case Exit(t) =>
        t in a.tasks && a' == a.(view := Emptied(a.view, t), tasks := a.tasks[t := a.tasks[t].(alive := false)])
      case Release(t) =>
        t in a.tasks && a' == a.(pages := a.pages - {a.tasks[t].page}, tasks := a.tasks - {t})
      case Exec(t, code, data) =>
        t in a.tasks && a' == a.(view := Emptied(a.view, t),
                                          tasks := a.tasks[t := a.tasks[t].(code := code, data := data)])
      case TakePage =>
        exists f :: f in a'.pages && AddsPage(a.pages, a'.pages, f) && a'.pages[f] == ZeroPage() &&
            a' == a.(pages := a'.pages)
      case DropPage(f) => a' == a.(pages := a.pages - {f})
      case FillPage(f, contents) => a' == a.(pages := a.pages[f := contents])
      case GivePage(f, t, k, i) =>
        f in a.pages && a' == a.(pages := a.pages - {f},
                                        view := a.view[(Block(t, k), i) := Private(a.pages[f], true)])
      case Share(t, p, k, i) =>
        // exactly a page that has not been written through is shared
        (Block(p, k), i) in a.view
        && var v := a.view[(Block(p, k), i)];
           a' == if v.Private? && v.clean then a.(view := a.view[(Block(t, k), i) := v]) else a
      case Verify(t, k, i) =>
        var p := (Block(t, k), i);
        && p in a.view
        && (a' == a || exists page :: MadePrivate(a, p, page) && a' == a.(view := a.view[p := Private(page, true)]))
      case Write(t, k, i, j, v) =>
        var p := (Block(t, k), i);
        p in a.view && j < WORDS
        && exists page :: MadePrivate(a, p, page) && |page| == WORDS &&
             a' == a.(view := a.view[p := Private(page[j := v], false)])
      case WriteLow(f, j, v) =>
        f in a.low && j < |a.low[f]| && a' == a.(low := a.low[f := a.low[f][j := v]])
  }

  ghost predicate AddsPage(a: map<nat, seq<Word>>, a': map<nat, seq<Word>>, f: nat) {
    f !in a && f in a' && a' == a[f := a'[f]]
  }
}

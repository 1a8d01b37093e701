/** How execve passes arguments and environment to a new program (linux-0.11/fs/exec.c):
    strings are copied backwards into pages, the pages become the top of the new
    memory, and pointer tables are built below them. */
module ExecArguments {

  import opened Basics

  const MAX_ARG_PAGES := 32
  const ARG_SPACE := PAGE_SIZE * MAX_ARG_PAGES
  const START := ARG_SPACE - 4      // where the last string ends
  const DATA_LIMIT := 0x4000000

  type Text = seq<nat>     // the bytes of a string, without its final zero

  ghost predicate IsText(s: Text) { forall i :: 0 <= i < |s| ==> 0 < s[i] < 256 }

  ghost predicate AreTexts(ss: seq<Text>) { forall i :: 0 <= i < |ss| ==> IsText(ss[i]) }

  /** Strings one after the other, each with its final zero. */
  function Join(ss: seq<Text>): (r: seq<nat>) {
    if ss == [] then [] else ss[0] + [0] + Join(ss[1..])
  }

  lemma JoinStep(ss: seq<Text>)
    requires ss != []
    ensures Join(ss) == ss[0] + [0] + Join(ss[1..])
  {
  }

  lemma {:induction false} JoinSplit(a: seq<Text>, b: seq<Text>)
    ensures Join(a + b) == Join(a) + Join(b)
  {
    hide Join;
    if a == [] {
      assert a + b == b;
      JoinNone();
    } else {
      JoinSplit(a[1..], b);
      assert (a + b)[1..] == a[1..] + b;
      JoinStep(a);
      JoinStep(a + b);
      Associate(a[0] + [0], Join(a[1..]), Join(b));
    }
  }

  lemma SplitAt(ss: seq<Text>, i: nat)
    requires i < |ss|
    ensures ss == ss[..i] + ([ss[i]] + ss[i + 1..]) && ss[..i + 1] == ss[..i] + [ss[i]]
  {
  }

  lemma Associate(a: seq<nat>, b: seq<nat>, c: seq<nat>)
    ensures a + (b + c) == a + b + c
  {
  }

  /** Where the i-th string is. */
  lemma JoinAt(ss: seq<Text>, i: nat)
    requires i < |ss|
    ensures Join(ss) == Join(ss[..i]) + (ss[i] + [0]) + Join(ss[i + 1..])
    ensures Join(ss[..i + 1]) == Join(ss[..i]) + (ss[i] + [0])
  {
    hide Join;
    SplitAt(ss, i);
    var (a, s, b) := (ss[..i], ss[i], ss[i + 1..]);
    JoinSplit(a, [s] + b);
    JoinSplit([s], b);
    JoinSplit(a, [s]);
    JoinOne(s);
    Associate(Join(a), s + [0], Join(b));
  }

  /** The k-th byte of the i-th string, seen from the start. */
  lemma JoinByte(ss: seq<Text>, i: nat, k: nat)
    requires i < |ss| && k <= |ss[i]|
    ensures |Join(ss[..i])| + k < |Join(ss)| && Join(ss)[|Join(ss[..i])| + k] == (ss[i] + [0])[k]
    ensures |Join(ss[..i + 1])| == |Join(ss[..i])| + |ss[i]| + 1 <= |Join(ss)|
  {
    hide Join;
    JoinAt(ss, i);
    Middle(Join(ss[..i]), ss[i] + [0], Join(ss[i + 1..]), k);
  }

  lemma Middle(a: seq<nat>, b: seq<nat>, c: seq<nat>, k: nat)
    requires k < |b|
    ensures (a + b + c)[|a| + k] == b[k]
  {
  }

  lemma JoinOne(s: Text)
    ensures Join([s]) == s + [0]
  {
    assert Join([]) == [];
  }

  lemma JoinNone()
    ensures Join([]) == []
  {
  }

  lemma {:induction false} JoinLength(ss: seq<Text>)
    ensures |Join(ss)| >= |ss|
  {
    if ss != [] { JoinLength(ss[1..]); }
  }

  // ---- copy_strings: strings into pages ----

  datatype Page = Absent | Present(bytes: seq<nat>)

  /** The lowest page in use when the strings reach down to p. */
  function LowestPage(p: nat): nat { if p >= START then MAX_ARG_PAGES else p / PAGE_SIZE }

  /** Pages needed for strings of n bytes in all. */
  function PagesFor(n: nat): nat
    requires n <= START
  {
    MAX_ARG_PAGES - LowestPage(START - n)
  }

  /** Another byte needs another page exactly when p stands at the start of a page, or nothing is there yet. */
  lemma LowestPageStep(p: nat)
    requires p < START
    ensures LowestPage(p) == p / PAGE_SIZE < MAX_ARG_PAGES
    ensures LowestPage(p + 1) == LowestPage(p) + (if (p + 1) % PAGE_SIZE == 0 || p + 1 == START then 1 else 0)
  {
  }

  lemma LowestPageDown(p: nat, q: nat)
    requires p <= q <= START
    ensures LowestPage(p) <= LowestPage(q) <= LowestPage(START) == MAX_ARG_PAGES
  {
  }

  predicate AtOffset(p: int, offset: int) { offset == 0 || (0 <= p < START && offset == p % PAGE_SIZE) }

  class ArgPages {
    const page: array<Page>
    var left: nat      // pages get_free_page can still give

    ghost predicate Valid()
      reads this, page
    {
      page.Length == MAX_ARG_PAGES && forall i :: 0 <= i < MAX_ARG_PAGES && page[i].Present? ==>
          |page[i].bytes| == PAGE_SIZE
    }

    /** The byte at a position of the argument space. */
    ghost function Flat(x: nat): nat
      requires Valid() && x < ARG_SPACE
      reads this, page
    {
      if page[x / PAGE_SIZE].Present? then page[x / PAGE_SIZE].bytes[x % PAGE_SIZE] else 0
    }

    constructor (left: nat)
      ensures Valid() && this.left == left && forall x :: 0 <= x < ARG_SPACE ==> Flat(x) == 0
      ensures forall i :: 0 <= i < MAX_ARG_PAGES ==> page[i].Absent?
      ensures fresh(page)
    {
      page := new Page[MAX_ARG_PAGES](_ => Absent);
      this.left := left;
    }

    /** The pages in use are those from LowestPage(p) on. */
    ghost predicate UsedFrom(p: nat)
      requires Valid()
      reads this, page
    {
      p <= START && forall i :: 0 <= i < MAX_ARG_PAGES ==> (page[i].Present? <==> i >= LowestPage(p))
    }

    /** A page for position p, got from the system if need be. */
    method GetPage(p: nat) returns (ok: bool)
      requires Valid() && p < ARG_SPACE
      modifies this, page
      ensures Valid() && ok == (old(page[p / PAGE_SIZE].Present?) || old(left) > 0)
      ensures forall x :: 0 <= x < ARG_SPACE ==> Flat(x) == old(Flat(x))
      ensures left == old(left) - (if ok && old(page[p / PAGE_SIZE].Absent?) then 1 else 0)
      ensures forall i :: 0 <= i < MAX_ARG_PAGES ==>
                (page[i].Present? <==> old(page[i].Present?) || (ok && i == p / PAGE_SIZE))
    {
      if page[p / PAGE_SIZE].Absent? {
        if left == 0 { return false; }
        left := left - 1;
        page[p / PAGE_SIZE] := Present(seq(PAGE_SIZE, _ => 0));
      }
      ok := true;
    }

    /** The bytes from p on are those of `all`, which ends at `start`; the others are as in `before`. */
    ghost predicate Copied(all: seq<nat>, p: int, start: nat, before: seq<nat>)
      requires Valid()
      reads this, page
    {
      && 0 <= start - |all| <= p <= start <= START && |before| == ARG_SPACE
      && (forall x :: 0 <= x < ARG_SPACE ==> Flat(x) == if p <= x < start then all[x - (start - |all|)] else before[x])
    }

    /** One string, its final zero first; offset is 0, or where p is in its page. */
    method CopyString(s: Text, end: nat, off: nat, ghost all: seq<nat>, ghost start: nat,
            ghost before: seq<nat>) returns (p: nat, offset: int, ok: bool)
      requires Valid() && UsedFrom(end) && Copied(all, end, start, before) && AtOffset(end, off)
      requires var from := end - |s| - 1 - (start - |all|); from >= 0 && forall k :: 0 <= k <= |s| ==>
                 all[from + k] == (s + [0])[k]
      modifies this, page
      ensures Valid() && ok == (old(left) >= LowestPage(end) - LowestPage(end - |s| - 1))
      ensures ok ==> p == end - |s| - 1 && Copied(all, p, start, before) && AtOffset(p, offset)
      ensures ok ==> UsedFrom(p) && left == old(left) - (LowestPage(end) - LowestPage(p))
    {
      p, offset, ok := end, off, true;
      var tmp := s + [0];
      var len := |tmp|;
      while len > 0
        invariant 0 <= len <= |tmp| && Valid() && p == end - |s| - 1 + len
        invariant Copied(all, p, start, before) && AtOffset(p, offset)
        invariant UsedFrom(p) && left == old(left) - (LowestPage(end) - LowestPage(p))
      {
        p := p - 1;
        len := len - 1;
        offset := offset - 1;
        LowestPageStep(p);
        LowestPageDown(end - |s| - 1, p);
        if offset < 0 {
          offset := p % PAGE_SIZE;
          ok := GetPage(p);
          if !ok { return; }
        }
        PutByte(p, tmp[len]);
      }
    }

    /** copy_strings: from the last string to the first, each from its end to its start. The result is 0 if there
        are too few pages left, but also if the strings fill the space down to its first byte. */
    method CopyStrings(strings: seq<Text>, start: nat) returns (p: nat)
      requires Valid() && (start > 0 ==> UsedFrom(start) && |Join(strings)| <= start)
      modifies this, page
      ensures Valid()
      ensures p == 0 <==>
              (|| start == 0 || |Join(strings)| == start
               || old(left) < LowestPage(start) - LowestPage(start - |Join(strings)|))
      ensures p != 0 ==> p == start - |Join(strings)| && Copied(Join(strings), p, start, old(Space()))
      ensures p != 0 ==> UsedFrom(p) && left == old(left) - (LowestPage(start) - LowestPage(p))
    {
      hide Join, LowestPage;
      if start == 0 { return 0; }
      ghost var before := Space();
      p := start;
      var offset, ok := 0, true;
      var argc := |strings|;
      ghost var (all, base) := (Join(strings), start - |Join(strings)|);
      assert strings[..argc] == strings;
      while argc > 0
        invariant 0 <= argc <= |strings| && Valid() && p == base + |Join(strings[..argc])|
        invariant Copied(all, p, start, before) && AtOffset(p, offset)
        invariant UsedFrom(p) && left == old(left) - (LowestPage(start) - LowestPage(p))
      {
        argc := argc - 1;
        JoinByte(strings, argc, |strings[argc]|);
        forall k | 0 <= k <= |strings[argc]| ensures all[|Join(strings[..argc])| + k] == (strings[argc] + [0])[k] {
          JoinByte(strings, argc, k);
        }
        LowestPageDown(base, p - |strings[argc]| - 1);
        p, offset, ok := CopyString(strings[argc], p, offset, all, start, before);
        if !ok { return 0; }
      }
      assert strings[..0] == [];
      JoinNone();
    }

    ghost function Space(): (s: seq<nat>)
      requires Valid()
      reads this, page
      ensures |s| == ARG_SPACE && forall x :: 0 <= x < ARG_SPACE ==> s[x] == Flat(x)
    {
      seq(ARG_SPACE, x requires 0 <= x < ARG_SPACE reads this, page requires Valid() => Flat(x))
    }

    /** *(pag + offset) = c */
    method PutByte(p: nat, c: nat)
      requires Valid() && p < ARG_SPACE && page[p / PAGE_SIZE].Present?
      modifies page
      ensures Valid() && forall x :: 0 <= x < ARG_SPACE ==> Flat(x) == if x == p then c else old(Flat(x))
      ensures forall i :: 0 <= i < MAX_ARG_PAGES ==> page[i].Present? == old(page[i].Present?)
    {
      page[p / PAGE_SIZE] := Present(page[p / PAGE_SIZE].bytes[p % PAGE_SIZE := c]);
      forall x | 0 <= x < ARG_SPACE ensures Flat(x) == if x == p then c else old(Flat(x)) {
        if x / PAGE_SIZE == p / PAGE_SIZE && x % PAGE_SIZE == p % PAGE_SIZE { assert x == p; }
      }
    }
  }

  // ---- create_tables: pointer tables in the new memory ----

  type Memory = map<nat, nat>     // bytes; a page never written reads as zeros

  function ByteAt(m: Memory, a: nat): nat { if a in m then m[a] else 0 }

  /** put_fs_long and get_fs_long: four bytes, the lowest first. */
  function PutLong(m: Memory, a: nat, v: nat): Memory {
    m[a := v % 256][a + 1 := v / 0x100 % 256][a + 2 := v / 0x1_0000 % 256][a + 3 := v / 0x100_0000 % 256]
  }

  function GetLong(m: Memory, a: nat): nat {
    ByteAt(m, a) + 0x100 * ByteAt(m, a + 1) + 0x1_0000 * ByteAt(m, a + 2) + 0x100_0000 * ByteAt(m, a + 3)
  }

  lemma PutGet(m: Memory, a: nat, v: nat)
    requires v < 0x1_0000_0000
    ensures GetLong(PutLong(m, a, v), a) == v
  {
    Digits(v);
  }

  lemma Digits(v: nat)
    requires v < 0x1_0000_0000
    ensures v % 256 + 0x100 * (v / 0x100 % 256) + 0x1_0000 * (v / 0x1_0000 % 256) +
              0x100_0000 * (v / 0x100_0000 % 256) == v
  {
  }

  lemma PutElsewhere(m: Memory, a: nat, v: nat, b: nat)
    ensures b + 4 <= a || a + 4 <= b ==> GetLong(PutLong(m, a, v), b) == GetLong(m, b)
    ensures b < a || a + 4 <= b ==> ByteAt(PutLong(m, a, v), b) == ByteAt(m, b)
  {
  }

  /** The bytes s at address a. */
  ghost predicate Holds(m: Memory, a: nat, s: seq<nat>) { forall k :: 0 <= k < |s| ==> ByteAt(m, a + k) == s[k] }

  /** A zero-terminated string at address a. */
  ghost predicate IsString(m: Memory, a: nat, s: Text) { IsText(s) && Holds(m, a, s + [0]) }

  /** A null-terminated table at address t, whose i-th pointer addresses the i-th string; the strings
      follow one another from address p. */
  ghost predicate IsTable(m: Memory, t: nat, ss: seq<Text>, p: nat) {
    && (forall i :: 0 <= i < |ss| ==> GetLong(m, t + 4 * i) == p + |Join(ss[..i])|)
    && GetLong(m, t + 4 * |ss|) == 0
  }

  class UserMemory {
    var mem: Memory

    constructor (m: Memory)
      ensures mem == m
    {
      mem := m;
    }

    /** while (get_fs_byte(p++)) : the end of a string. */
    method SkipString(p: nat, ghost s: Text) returns (q: nat)
      requires IsString(mem, p, s)
      ensures q == p + |s| + 1
    {
      q := p;
      while ByteAt(mem, q) != 0
        invariant p <= q <= p + |s|
        decreases p + |s| - q
      {
        assert ByteAt(mem, p + (q - p)) == (s + [0])[q - p];
        q := q + 1;
        assert ByteAt(mem, p + (q - p)) == (s + [0])[q - p];
      }
      assert ByteAt(mem, p + (q - p)) == (s + [0])[q - p];
      q := q + 1;
    }

    /** One of the loops of create_tables: the pointers to n strings and a null pointer, at t. */
    method FillTable(t: nat, start: nat, n: nat, ghost ss: seq<Text>) returns (p: nat)
      requires n == |ss| && AreTexts(ss) && Holds(mem, start, Join(ss)) && t + 4 * (n + 1) <= start
      requires start + |Join(ss)| < 0x1_0000_0000
      modifies this
      ensures p == start + |Join(ss)| && IsTable(mem, t, ss, start)
      ensures forall a: nat :: a < t || t + 4 * (n + 1) <= a ==> ByteAt(mem, a) == ByteAt(old(mem), a)
    {
      hide Join, GetLong, PutLong;
      p := start;
      var i := 0;
      JoinNone();
      assert ss[..0] == [];
      while i < n
        invariant 0 <= i <= n && p == start + |Join(ss[..i])| && |Join(ss[..i])| <= |Join(ss)|
        invariant forall j :: 0 <= j < i ==> GetLong(mem, t + 4 * j) == start + |Join(ss[..j])|
        invariant forall a: nat :: a < t || t + 4 * (n + 1) <= a ==> ByteAt(mem, a) == ByteAt(old(mem), a)
      {
        ghost var m := mem;
        JoinByte(ss, i, |ss[i]|);
        mem := PutLong(mem, t + 4 * i, p);
        PutGet(m, t + 4 * i, p);
        forall j | 0 <= j < i ensures GetLong(mem, t + 4 * j) == GetLong(m, t + 4 * j) {
          PutElsewhere(m, t + 4 * i, p, t + 4 * j);
        }
        forall a: nat | a < t || t + 4 * (n + 1) <= a ensures ByteAt(mem, a) == ByteAt(old(mem), a) {
          PutElsewhere(m, t + 4 * i, p, a);
        }
        StringAt(old(mem), mem, start, ss, i);
        p := SkipString(p, ss[i]);
        i := i + 1;
      }
      assert ss[..n] == ss;
      ghost var m := mem;
      mem := PutLong(mem, t + 4 * n, 0);
      PutGet(m, t + 4 * n, 0);
      forall j | 0 <= j < n ensures GetLong(mem, t + 4 * j) == GetLong(m, t + 4 * j) {
        PutElsewhere(m, t + 4 * n, 0, t + 4 * j);
      }
      forall a: nat | a < t || t + 4 * (n + 1) <= a ensures ByteAt(mem, a) == ByteAt(old(mem), a) {
        PutElsewhere(m, t + 4 * n, 0, a);
      }
    }

    /** create_tables */
    method CreateTables(p: nat, argc: nat, envc: nat, ghost args: seq<Text>, ghost envs: seq<Text>) returns (sp: nat)
      requires argc == |args| && envc == |envs| && AreTexts(args) && AreTexts(envs)
      requires Holds(mem, p, Join(args) + Join(envs)) && p + |Join(args)| + |Join(envs)| < 0x1_0000_0000
      requires p >= 4 * (argc + envc + 6)
      modifies this
      ensures sp % 4 == 0 && sp + 4 * (argc + envc + 5) <= p < sp + 4 * (argc + envc + 6)
      ensures Ready(mem, sp, p, args, envs)
      ensures forall a: nat :: a < sp || p <= a ==> ByteAt(mem, a) == ByteAt(old(mem), a)
    {
      hide Join, GetLong, PutLong, Holds;
      ghost var m0 := mem;
      sp := p - p % 4;
      sp := sp - 4 * (envc + 1);
      var envp := sp;
      sp := sp - 4 * (argc + 1);
      var argv := sp;
      mem := PutLong(mem, sp - 4, envp);
      mem := PutLong(mem, sp - 8, argv);
      mem := PutLong(mem, sp - 12, argc);
      ThreeLongs(m0, sp - 12, argc, argv, envp);
      sp := sp - 12;
      JoinLength(args);
      ghost var m1 := mem;
      HoldsParts(m0, mem, p, Join(args), Join(envs));
      var q := FillTable(argv, p, argc, args);
      HoldsParts(m1, mem, p, Join(args), Join(envs));
      ghost var m2 := mem;
      var r := FillTable(envp, q, envc, envs);
      SameLongs(m1, m2, mem, sp, argv, envp, argc);
      TableKept(m2, mem, argv, args, p, envp);
    }
  }

  /** What the new program finds: the count and the addresses of the two tables at the stack pointer. */
  ghost predicate Ready(m: Memory, sp: nat, p: nat, args: seq<Text>, envs: seq<Text>) {
    && GetLong(m, sp) == |args|
    && GetLong(m, sp + 4) == sp + 12
    && GetLong(m, sp + 8) == sp + 12 + 4 * (|args| + 1)
    && IsTable(m, sp + 12, args, p)
    && IsTable(m, sp + 12 + 4 * (|args| + 1), envs, p + |Join(args)|)
  }

  lemma StringAt(m: Memory, m': Memory, start: nat, ss: seq<Text>, i: nat)
    requires AreTexts(ss) && Holds(m, start, Join(ss)) && i < |ss| && forall a: nat :: start <= a ==>
               ByteAt(m', a) == ByteAt(m, a)
    ensures IsString(m', start + |Join(ss[..i])|, ss[i])
  {
    hide Join;
    var a := start + |Join(ss[..i])|;
    forall k | 0 <= k < |ss[i] + [0]| ensures ByteAt(m', a + k) == (ss[i] + [0])[k] {
      JoinByte(ss, i, k);
      assert ByteAt(m, start + (|Join(ss[..i])| + k)) == Join(ss)[|Join(ss[..i])| + k];
    }
  }

  lemma ThreeLongs(m: Memory, a: nat, x: nat, y: nat, z: nat)
    requires x < 0x1_0000_0000 && y < 0x1_0000_0000 && z < 0x1_0000_0000
    ensures var m' := PutLong(PutLong(PutLong(m, a + 8, z), a + 4, y), a, x);
            && GetLong(m', a) == x && GetLong(m', a + 4) == y && GetLong(m', a + 8) == z
            && forall b: nat :: b < a || a + 12 <= b ==> ByteAt(m', b) == ByteAt(m, b)
  {
    hide GetLong, PutLong;
    var m1 := PutLong(m, a + 8, z);
    var m2 := PutLong(m1, a + 4, y);
    PutGet(m, a + 8, z);
    PutGet(m1, a + 4, y);
    PutGet(m2, a, x);
    PutElsewhere(m1, a + 4, y, a + 8);
    PutElsewhere(m2, a, x, a + 4);
    PutElsewhere(m2, a, x, a + 8);
    forall b: nat | b < a || a + 12 <= b ensures ByteAt(PutLong(m2, a, x), b) == ByteAt(m, b) {
      PutElsewhere(m, a + 8, z, b);
      PutElsewhere(m1, a + 4, y, b);
      PutElsewhere(m2, a, x, b);
    }
  }

  lemma HoldsParts(m: Memory, m': Memory, p: nat, a: seq<nat>, b: seq<nat>)
    requires Holds(m, p, a + b) && forall x: nat :: p <= x ==> ByteAt(m', x) == ByteAt(m, x)
    ensures Holds(m', p, a + b) && Holds(m', p, a) && Holds(m', p + |a|, b)
  {
    forall k | 0 <= k < |a| ensures ByteAt(m', p + k) == a[k] { assert (a + b)[k] == a[k]; }
    forall k | 0 <= k < |b| ensures ByteAt(m', p + |a| + k) == b[k] {
      assert ByteAt(m, p + (|a| + k)) == (a + b)[|a| + k];
    }
  }

  lemma LongKept(m: Memory, m': Memory, a: nat)
    requires forall b: nat :: a <= b < a + 4 ==> ByteAt(m', b) == ByteAt(m, b)
    ensures GetLong(m', a) == GetLong(m, a)
  {
  }

  lemma SameLongs(m1: Memory, m2: Memory, m3: Memory, sp: nat, argv: nat, envp: nat, argc: nat)
    requires argv == sp + 12 && envp >= argv
    requires forall a: nat :: a < argv ==> ByteAt(m2, a) == ByteAt(m1, a)
    requires forall a: nat :: a < envp ==> ByteAt(m3, a) == ByteAt(m2, a)
    ensures GetLong(m3, sp) == GetLong(m1, sp) && GetLong(m3, sp + 4) == GetLong(m1, sp + 4)
    ensures GetLong(m3, sp + 8) == GetLong(m1, sp + 8)
  {
    LongKept(m1, m3, sp);
    LongKept(m1, m3, sp + 4);
    LongKept(m1, m3, sp + 8);
  }

  lemma TableKept(m: Memory, m': Memory, t: nat, ss: seq<Text>, p: nat, end: nat)
    requires IsTable(m, t, ss, p) && t + 4 * (|ss| + 1) <= end && forall a: nat :: a < end ==>
               ByteAt(m', a) == ByteAt(m, a)
    ensures IsTable(m', t, ss, p)
  {
    hide GetLong, Join;
    forall i | 0 <= i <= |ss| ensures GetLong(m', t + 4 * i) == GetLong(m, t + 4 * i) { LongKept(m, m', t + 4 * i); }
  }

  // ---- change_ldt and the whole of it ----

  /** Where the argument space ends up in the new memory. */
  const TOP := DATA_LIMIT - ARG_SPACE

  /** put_page, seen from the program whose page it becomes. */
  method PutPage(user: UserMemory, bytes: seq<nat>, base: nat)
    modifies user
    ensures forall a: nat ::
              ByteAt(user.mem, a) == if base <= a < base + |bytes| then bytes[a - base] else ByteAt(old(user.mem), a)
  {
    for k := 0 to |bytes|
      invariant forall a: nat ::
                  ByteAt(user.mem, a) == if base <= a < base + k then bytes[a - base] else ByteAt(old(user.mem), a)
    {
      user.mem := user.mem[base + k := bytes[k]];
    }
  }

  /** put_page for each page, from the last to the first. */
  method ChangeLdt(pages: ArgPages, user: UserMemory)
    requires pages.Valid()
    modifies user
    ensures forall x :: 0 <= x < ARG_SPACE && pages.page[x / PAGE_SIZE].Present? ==>
              ByteAt(user.mem, TOP + x) == pages.Flat(x)
    ensures forall a: nat :: a < TOP ==> ByteAt(user.mem, a) == ByteAt(old(user.mem), a)
  {
    var i := MAX_ARG_PAGES;
    var base := DATA_LIMIT;
    while i > 0
      invariant 0 <= i <= MAX_ARG_PAGES && base == TOP + PAGE_SIZE * i
      invariant forall x :: PAGE_SIZE * i <= x < ARG_SPACE && pages.page[x / PAGE_SIZE].Present? ==>
                  ByteAt(user.mem, TOP + x) == pages.Flat(x)
      invariant forall a: nat :: a < TOP ==> ByteAt(user.mem, a) == ByteAt(old(user.mem), a)
    {
      i := i - 1;
      base := base - PAGE_SIZE;
      if pages.page[i].Present? {
        PutPage(user, pages.page[i].bytes, base);
      }
      forall x | PAGE_SIZE * i <= x < ARG_SPACE && pages.page[x / PAGE_SIZE].Present?
        ensures ByteAt(user.mem, TOP + x) == pages.Flat(x)
      {
        if x < PAGE_SIZE * (i + 1) { assert x / PAGE_SIZE == i && x % PAGE_SIZE == x - PAGE_SIZE * i; }
      }
    }
  }

  /** The passing of arguments in execve: environment, arguments, remapping, tables. With `left` free pages it
      succeeds exactly if those are enough for all the strings; but strings that fill the last byte are refused. */
  method Execve(args: seq<Text>, envs: seq<Text>, left: nat, user: UserMemory) returns (sp: nat, p: nat)
    requires AreTexts(args) && AreTexts(envs) && |Join(args)| + |Join(envs)| <= START
    modifies user
    ensures sp == 0 <==> |Join(args)| + |Join(envs)| == START || left < PagesFor(|Join(args)| + |Join(envs)|)
    ensures sp != 0 ==> Ready(user.mem, sp, p, args, envs) && sp % 4 == 0 && sp + 4 * (|args| + |envs| + 5) <= p
    ensures sp != 0 ==> Holds(user.mem, p, Join(args) + Join(envs)) && p + |Join(args)| + |Join(envs)| == DATA_LIMIT - 4
  {
    hide Join, Holds, Ready, AreTexts;
    sp := 0;
    var pages := new ArgPages(left);
    p := pages.CopyStrings(envs, START);
    if p == 0 { LowestPageDown(START - |Join(args)| - |Join(envs)|, START - |Join(envs)|); return; }
    p := pages.CopyStrings(args, p);
    if p == 0 { return; }
    ChangeLdt(pages, user);
    ghost var all := Join(args) + Join(envs);
    ghost var start := p;
    forall k | 0 <= k < |all| ensures ByteAt(user.mem, TOP + start + k) == all[k] {
      assert pages.Flat(start + k) == all[k];
      LowestPageDown(start, start + k);
    }
    HoldsFrom(user.mem, TOP + start, all);
    p := p + DATA_LIMIT - ARG_SPACE;
    JoinLength(args);
    JoinLength(envs);
    ghost var m := user.mem;
    sp := user.CreateTables(p, |args|, |envs|, args, envs);
    HoldsParts(m, user.mem, p, Join(args), Join(envs));
  }

  lemma HoldsFrom(m: Memory, a: nat, s: seq<nat>)
    requires forall k :: 0 <= k < |s| ==> ByteAt(m, a + k) == s[k]
    ensures Holds(m, a, s)
  {
  }

  /** What the new program sees: its i-th argument is a copy of the i-th string it was given, above
      the tables. */
  lemma ArgumentArrives(m: Memory, sp: nat, p: nat, args: seq<Text>, envs: seq<Text>, i: nat)
    requires AreTexts(args) && Ready(m, sp, p, args, envs) && Holds(m, p, Join(args) + Join(envs)) && i < |args|
    ensures GetLong(m, sp) == |args|
    ensures var a := GetLong(m, GetLong(m, sp + 4) + 4 * i); p <= a && IsString(m, a, args[i])
    ensures GetLong(m, GetLong(m, sp + 4) + 4 * |args|) == 0
  {
    hide Join, GetLong, IsText, Holds;
    HoldsParts(m, m, p, Join(args), Join(envs));
    StringAt(m, m, p, args, i);
  }

  /** And so for the environment. */
  lemma EnvironmentArrives(m: Memory, sp: nat, p: nat, args: seq<Text>, envs: seq<Text>, i: nat)
    requires AreTexts(envs) && Ready(m, sp, p, args, envs) && Holds(m, p, Join(args) + Join(envs)) && i < |envs|
    ensures var a := GetLong(m, GetLong(m, sp + 8) + 4 * i); p <= a && IsString(m, a, envs[i])
    ensures GetLong(m, GetLong(m, sp + 8) + 4 * |envs|) == 0
  {
    hide Join, GetLong, IsText, Holds;
    HoldsParts(m, m, p, Join(args), Join(envs));
    StringAt(m, m, p + |Join(args)|, envs, i);
  }
}

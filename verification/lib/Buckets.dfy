/** The kernel's bucket allocator (linux-0.11/lib/malloc.c): each page holds
    objects of one size, and its free cells are chained through their own first words. */
module Buckets {

  import opened Basics

  const NR_BUCKETS := 9
  const DESCS_PER_PAGE := 256     // PAGE_SIZE / sizeof(struct bucket_desc)

  /** bucket_dir[i].size */
  function Size(i: nat): (s: nat)
    requires i < NR_BUCKETS
    ensures s == 16 || s == 32 || s == 64 || s == 128 || s == 256 || s == 512 || s == 1024 || s == 2048 || s == 4096
  {
    [16, 32, 64, 128, 256, 512, 1024, 2048, 4096][i]
  }

  /** Objects on a page. */
  function Cells(i: nat): (n: nat)
    requires i < NR_BUCKETS
    ensures 1 <= n <= 256 && n * Size(i) == PAGE_SIZE
  {
    [256, 128, 64, 32, 16, 8, 4, 2, 1][i]
  }

  /** struct bucket_desc; a page has one, so it is known by its page. */
  datatype Desc = Desc(bucket: nat, freeptr: nat, refcnt: nat)

  /** chains: the pages on each bucket's chain; mem: the words of memory; spare: free descriptors. */
  datatype Heap = Heap(chains: seq<seq<nat>>, desc: map<nat, Desc>, mem: map<nat, nat>, spare: nat)

  datatype Outcome<T> = Done(value: T) | Panic

  function Word(mem: map<nat, nat>, a: nat): nat { if a in mem then mem[a] else 0 }

  function Addr(page: nat, i: nat, k: nat): nat
    requires i < NR_BUCKETS
  {
    page + k * Size(i)
  }

  // ---- malloc ----

  /** The first bucket for objects of len bytes, from the i-th on. */
  function BucketFor(len: nat, i: nat): (r: nat)
    requires i <= NR_BUCKETS
    ensures i <= r <= NR_BUCKETS
    decreases NR_BUCKETS - i
  {
    if i == NR_BUCKETS || Size(i) >= len then i else BucketFor(len, i + 1)
  }

  predicate Covered(h: Heap) {
    |h.chains| == NR_BUCKETS && forall i, k :: 0 <= i < NR_BUCKETS && 0 <= k < |h.chains[i]| ==>
        h.chains[i][k] in h.desc
  }

  /** The first page of a chain with a free object; 0: none. */
  function Roomy(desc: map<nat, Desc>, chain: seq<nat>): (p: nat)
    requires forall k :: 0 <= k < |chain| ==> chain[k] in desc
    ensures p == 0 || (p in chain && p in desc && desc[p].freeptr != 0)
  {
    if chain == [] then 0 else if desc[chain[0]].freeptr != 0 then chain[0] else Roomy(desc, chain[1..])
  }

  /** The chain of free objects of a new page, from cell k on. */
  function LinkCells(mem: map<nat, nat>, page: nat, i: nat, k: nat): map<nat, nat>
    requires i < NR_BUCKETS && k < Cells(i)
    decreases Cells(i) - k
  {
    if k + 1 == Cells(i) then mem[Addr(page, i, k) := 0]
    else LinkCells(mem[Addr(page, i, k) := Addr(page, i, k + 1)], page, i, k + 1)
  }

  function NewBucket(h: Heap, i: nat, page: nat): (r: Heap)
    requires Covered(h) && i < NR_BUCKETS
    ensures Covered(r)
  {
    Heap(h.chains[i := [page] + h.chains[i]], h.desc[page := Desc(i, page, 0)], LinkCells(h.mem, page, i, 0),
         (if h.spare == 0 then DESCS_PER_PAGE else h.spare) - 1)
  }

  /** The first free object of a page is handed out. */
  function Take(h: Heap, p: nat): (Heap, nat)
    requires p in h.desc
  {
    var a := h.desc[p].freeptr;
    (h.(desc := h.desc[p := h.desc[p].(freeptr := Word(h.mem, a), refcnt := h.desc[p].refcnt + 1)]), a)
  }

  /** malloc; page is what get_free_page gives for a bucket, more whether it gives a page for descriptors. */
  function Malloc(h: Heap, len: nat, page: nat, more: bool): Outcome<(Heap, nat)>
    requires Covered(h)
  {
    var i := BucketFor(len, 0);
    if i == NR_BUCKETS then Panic else
    var p := Roomy(h.desc, h.chains[i]);
    if p != 0 then Done(Take(h, p))
    else if (h.spare == 0 && !more) || page == 0 then Panic
    else Done(Take(NewBucket(h, i, page), page))
  }

  // ---- free_s ----

  /** The bucket on whose chain the page is, from the i-th on, leaving out those too small. */
  function Search(chains: seq<seq<nat>>, page: nat, size: nat, i: nat): (r: nat)
    requires |chains| == NR_BUCKETS && i <= NR_BUCKETS
    ensures r <= NR_BUCKETS
    ensures r < NR_BUCKETS ==> r >= i && page in chains[r]
    decreases NR_BUCKETS - i
  {
    if i == NR_BUCKETS then i
    else if Size(i) >= size && page in chains[i] then i
    else Search(chains, page, size, i + 1)
  }

  /** free_s: the heap, and the page given back to the system (0: none). */
  function Free(h: Heap, obj: nat, size: nat): Outcome<(Heap, nat)>
    requires Covered(h)
  {
    var page := obj - obj % PAGE_SIZE;
    var i := Search(h.chains, page, size, 0);
    if i == NR_BUCKETS then Panic else
    var d := h.desc[page];
    var mem := h.mem[obj := d.freeptr];
    if d.refcnt != 1 then
      var refcnt := if d.refcnt == 0 then 0xFFFF else d.refcnt - 1;
      Done((h.(mem := mem, desc := h.desc[page := d.(freeptr := obj, refcnt := refcnt)]), 0))
    else
      Done((Heap(h.chains[i := Without(h.chains[i], page)], h.desc - {page}, mem, h.spare + 1), page))
  }

  // ---- What holds between calls ----

  /** frees: for each page, the numbers of its free cells, in chain order; live: the objects handed
      out, with the lengths asked for; home: where each is. */
  datatype Books = Books(frees: map<nat, seq<nat>>, live: map<nat, nat>, home: map<nat, (nat, nat)>)

  /** The t-th free cell's address, or the null pointer past the end. */
  function Nth(page: nat, i: nat, c: seq<nat>, t: nat): nat
    requires i < NR_BUCKETS
  {
    if t < |c| then Addr(page, i, c[t]) else 0
  }

  ghost predicate FreeChain(mem: map<nat, nat>, page: nat, i: nat, c: seq<nat>)
    requires i < NR_BUCKETS
  {
    && (forall t :: 0 <= t < |c| ==> c[t] < Cells(i) && Word(mem, Addr(page, i, c[t])) == Nth(page, i, c, t + 1))
    && (forall t, u :: 0 <= t < u < |c| ==> c[t] != c[u])
  }

  ghost predicate PageRight(h: Heap, g: Books, p: nat)
    requires p in h.desc
  {
    var d := h.desc[p];
    && p > 0 && p % PAGE_SIZE == 0 && d.bucket < NR_BUCKETS && p in g.frees
    && FreeChain(h.mem, p, d.bucket, g.frees[p]) && d.freeptr == Nth(p, d.bucket, g.frees[p], 0)
    && d.refcnt + |g.frees[p]| == Cells(d.bucket)
    && (forall k: nat :: k < Cells(d.bucket) ==> CellRight(g, p, d.bucket, k))
  }

  /** A cell is free or an object, not both. */
  ghost predicate CellRight(g: Books, p: nat, i: nat, k: nat)
    requires i < NR_BUCKETS && p in g.frees
  {
    k in g.frees[p] <==> Addr(p, i, k) !in g.live
  }

  ghost predicate ObjectRight(h: Heap, g: Books, a: nat)
    requires a in g.live
  {
    && a in g.home
    && var (p, k) := g.home[a];
       p in h.desc && h.desc[p].bucket < NR_BUCKETS && k < Cells(h.desc[p].bucket) &&
           a == Addr(p, h.desc[p].bucket, k) && g.live[a] <= Size(h.desc[p].bucket)
  }

  ghost predicate NoRepeat(c: seq<nat>) { forall k, l :: 0 <= k < l < |c| ==> c[k] != c[l] }

  /** Each page is once on the chain of its bucket, and on no other. */
  ghost predicate ChainsRight(h: Heap) {
    && Covered(h)
    && (forall i, p :: 0 <= i < NR_BUCKETS && p in h.chains[i] ==> p in h.desc && h.desc[p].bucket == i)
    && (forall p :: p in h.desc ==> h.desc[p].bucket < NR_BUCKETS && p in h.chains[h.desc[p].bucket])
    && (forall i :: 0 <= i < NR_BUCKETS ==> NoRepeat(h.chains[i]))
  }

  /** A page without objects is not kept. */
  ghost predicate Busy(h: Heap, except: nat) {
    forall p :: p in h.desc && p != except ==> h.desc[p].refcnt >= 1
  }

  ghost predicate Inv(h: Heap, g: Books) { Kept(h, g) && Busy(h, 0) }

  ghost predicate Kept(h: Heap, g: Books) {
    && ChainsRight(h)
    && (forall p :: p in h.desc ==> PageRight(h, g, p))
    && (forall a :: a in g.live ==> ObjectRight(h, g, a))
  }
}

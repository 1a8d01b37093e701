/** malloc and free_s keep every object apart from every other, and from the free cells. */
module BucketLemmas {
  import opened Buckets
  import opened Basics

  // ---- Addresses ----

  lemma Multiple(a: nat, b: nat, s: nat)
    requires a < b
    ensures a * s + s <= b * s
  {
    assert b * s == a * s + s + (b - a - 1) * s;
    assert (b - a - 1) * s >= 0;
  }

  /** A cell lies within its page, and lower cells end before it starts. */
  lemma CellFits(page: nat, i: nat, k: nat)
    requires i < NR_BUCKETS && k < Cells(i)
    ensures page <= Addr(page, i, k) && Addr(page, i, k) + Size(i) <= page + PAGE_SIZE
    ensures forall l: nat :: l < k ==> Addr(page, i, l) + Size(i) <= Addr(page, i, k)
  {
    Multiple(k, Cells(i), Size(i));
    forall l: nat | l < k ensures Addr(page, i, l) + Size(i) <= Addr(page, i, k) { Multiple(l, k, Size(i)); }
  }

  lemma PageOf(page: nat, i: nat, k: nat)
    requires i < NR_BUCKETS && k < Cells(i) && page % PAGE_SIZE == 0
    ensures Addr(page, i, k) - Addr(page, i, k) % PAGE_SIZE == page
  {
    CellFits(page, i, k);
  }

  /** Different cells have different addresses. */
  lemma SameCell(p: nat, i: nat, k: nat, q: nat, j: nat, l: nat)
    requires i < NR_BUCKETS && k < Cells(i) && p % PAGE_SIZE == 0 && j < NR_BUCKETS && l < Cells(j)
    requires q % PAGE_SIZE == 0
    requires Addr(p, i, k) == Addr(q, j, l)
    ensures p == q && (i == j ==> k == l)
  {
    PageOf(p, i, k);
    PageOf(q, j, l);
    CellFits(p, i, k);
    CellFits(q, j, l);
    if i == j { if k < l { CellFits(p, i, l); } else if l < k { CellFits(p, i, k); } }
  }

  // ---- Counting ----

  lemma {:induction false} Elements(c: seq<nat>) returns (s: set<nat>)
    requires forall t, u :: 0 <= t < u < |c| ==> c[t] != c[u]
    ensures |s| == |c| && forall x :: x in s <==> x in c
  {
    if c == [] {
      s := {};
    } else {
      var r := Elements(c[1..]);
      s := r + {c[0]};
    }
  }

  lemma {:induction false} Range(n: nat) returns (s: set<nat>)
    ensures |s| == n && forall x: nat :: x in s <==> x < n
  {
    if n == 0 {
      s := {};
    } else {
      var r := Range(n - 1);
      s := r + {n - 1};
    }
  }

  /** n different numbers below n are all of them; fewer are not. */
  lemma Pigeonhole(c: seq<nat>, n: nat)
    requires (forall t, u :: 0 <= t < u < |c| ==> c[t] != c[u]) && (forall t :: 0 <= t < |c| ==> c[t] < n)
    ensures |c| <= n && (|c| == n <==> forall k: nat :: k < n ==> k in c)
  {
    var s := Elements(c);
    var r := Range(n);
    forall x | x in s ensures x in r { assert x in c; }
    SubsetSize(s, r);
    if forall k: nat :: k < n ==> k in c {
      forall x | x in r ensures x in s { assert x in c; }
      SubsetSize(r, s);
    }
  }

  // ---- malloc ----

  /** The words of free cells are all that malloc relies on. */
  lemma ChainFrame(mem: map<nat, nat>, mem': map<nat, nat>, page: nat, i: nat, c: seq<nat>)
    requires i < NR_BUCKETS && FreeChain(mem, page, i, c)
    requires forall t :: 0 <= t < |c| ==> Word(mem', Addr(page, i, c[t])) == Word(mem, Addr(page, i, c[t]))
    ensures FreeChain(mem', page, i, c)
  {
    hide Word;
  }

  /** A free cell is not an object. */
  lemma FreeNotLive(h: Heap, g: Books, p: nat, t: nat)
    requires Kept(h, g) && p in h.desc && p in g.frees && t < |g.frees[p]|
    ensures h.desc[p].bucket < NR_BUCKETS && g.frees[p][t] < Cells(h.desc[p].bucket)
    ensures Addr(p, h.desc[p].bucket, g.frees[p][t]) !in g.live
  {
    assert PageRight(h, g, p);
    assert CellRight(g, p, h.desc[p].bucket, g.frees[p][t]);
    assert g.frees[p][t] in g.frees[p];
  }

  function Taken(g: Books, h: Heap, p: nat, len: nat): Books
    requires p in h.desc && p in g.frees && g.frees[p] != []
  {
    var a := h.desc[p].freeptr;
    Books(g.frees[p := g.frees[p][1..]], g.live[a := len], g.home[a := (p, g.frees[p][0])])
  }

  lemma NotEmpty(h: Heap, g: Books, p: nat)
    requires Kept(h, g) && p in h.desc
    ensures p in g.frees && h.desc[p].bucket < NR_BUCKETS
    ensures h.desc[p].freeptr != 0 <==> g.frees[p] != []
    ensures g.frees[p] != [] ==>
              g.frees[p][0] < Cells(h.desc[p].bucket) && h.desc[p].freeptr == Addr(p, h.desc[p].bucket, g.frees[p][0])
  {
    hide ChainsRight;
    assert PageRight(h, g, p);
  }

  /** On the page itself. */
  lemma TakePage(h: Heap, g: Books, p: nat, len: nat)
    requires Kept(h, g) && p in h.desc && p in g.frees && g.frees[p] != []
    ensures PageRight(Take(h, p).0, Taken(g, h, p, len), p)
  {
    hide ChainsRight, ObjectRight;
    var (h', g') := (Take(h, p).0, Taken(g, h, p, len));
    assert PageRight(h, g, p);
    var (i, c) := (h.desc[p].bucket, g.frees[p]);
    var a := h.desc[p].freeptr;
    forall k: nat | k < Cells(i) ensures CellRight(g', p, i, k) {
      assert CellRight(g, p, i, k);
      if Addr(p, i, k) == a { SameCell(p, i, k, p, i, c[0]); }
      assert k in c <==> k == c[0] || k in c[1..];
    }
  }

  lemma TakeOtherPage(h: Heap, g: Books, p: nat, len: nat, q: nat)
    requires Kept(h, g) && p in h.desc && p in g.frees && g.frees[p] != [] && q in h.desc && q != p
    ensures PageRight(Take(h, p).0, Taken(g, h, p, len), q)
  {
    hide ChainsRight, ObjectRight, FreeChain;
    var (h', g') := (Take(h, p).0, Taken(g, h, p, len));
    assert PageRight(h, g, p);
    assert PageRight(h, g, q);
    NotEmpty(h, g, p);
    var j := h.desc[q].bucket;
    forall k: nat | k < Cells(j) ensures CellRight(g', q, j, k) {
      assert CellRight(g, q, j, k);
      if Addr(q, j, k) == h.desc[p].freeptr { SameCell(p, h.desc[p].bucket, g.frees[p][0], q, j, k); }
    }
  }

  lemma TakeObjects(h: Heap, g: Books, p: nat, len: nat, a: nat)
    requires Kept(h, g) && p in h.desc && p in g.frees && g.frees[p] != [] && h.desc[p].bucket < NR_BUCKETS
    requires len <= Size(h.desc[p].bucket)
    requires a in Taken(g, h, p, len).live
    ensures ObjectRight(Take(h, p).0, Taken(g, h, p, len), a)
  {
    hide ChainsRight, PageRight;
    NotEmpty(h, g, p);
    if a != h.desc[p].freeptr { assert ObjectRight(h, g, a); }
  }

  lemma TakeKeeps(h: Heap, g: Books, p: nat, len: nat)
    requires Kept(h, g) && Busy(h, p) && p in h.desc && p in g.frees && g.frees[p] != []
    requires h.desc[p].bucket < NR_BUCKETS && len <= Size(h.desc[p].bucket)
    ensures Inv(Take(h, p).0, Taken(g, h, p, len))
    ensures var a := Take(h, p).1;
            a !in g.live && Taken(g, h, p, len).live == g.live[a := len] && a - a % PAGE_SIZE == p
  {
    hide PageRight, ObjectRight, Take, ChainsRight;
    var (h', g') := (Take(h, p).0, Taken(g, h, p, len));
    TakeDesc(h, p);
    TakeChains(h, p);
    forall q | q in h'.desc ensures PageRight(h', g', q) {
      if q == p { TakePage(h, g, p, len); } else { TakeOtherPage(h, g, p, len, q); }
    }
    forall a | a in g'.live ensures ObjectRight(h', g', a) { TakeObjects(h, g, p, len, a); }
    NotEmpty(h, g, p);
    FreeNotLive(h, g, p, 0);
    PageRightOf(h, g, p);
    PageOf(p, h.desc[p].bucket, g.frees[p][0]);
  }

  lemma TakeChains(h: Heap, p: nat)
    requires ChainsRight(h) && p in h.desc
    ensures ChainsRight(Take(h, p).0)
  {
  }

  lemma PageRightOf(h: Heap, g: Books, p: nat)
    requires Kept(h, g) && p in h.desc
    ensures p > 0 && p % PAGE_SIZE == 0
  {
    hide ChainsRight;
    assert PageRight(h, g, p);
  }

  lemma TakeDesc(h: Heap, p: nat)
    requires p in h.desc
    ensures var h' := Take(h, p).0;
            && h'.chains == h.chains && h'.mem == h.mem && h'.desc.Keys == h.desc.Keys
            && (forall q :: q in h.desc ==>
                  h'.desc[q].bucket == h.desc[q].bucket && (q != p ==> h'.desc[q] == h.desc[q]))
            && h'.desc[p].refcnt >= 1 && Take(h, p).1 == h.desc[p].freeptr
  {
  }

  // ---- A new bucket ----

  /** Linking cells leaves other words alone. */
  lemma {:induction false} LinkCellsFrame(mem: map<nat, nat>, page: nat, i: nat, k: nat, a: nat)
    requires i < NR_BUCKETS && k < Cells(i) && forall l: nat :: k <= l < Cells(i) ==> a != Addr(page, i, l)
    ensures Word(LinkCells(mem, page, i, k), a) == Word(mem, a)
    decreases Cells(i) - k
  {
    if k + 1 < Cells(i) { LinkCellsFrame(mem[Addr(page, i, k) := Addr(page, i, k + 1)], page, i, k + 1, a); }
  }

  /** Each cell from the k-th on points to the next, the last to nothing. */
  lemma {:induction false} LinkCellsIs(mem: map<nat, nat>, page: nat, i: nat, k: nat, l: nat)
    requires i < NR_BUCKETS && k <= l < Cells(i)
    ensures Word(LinkCells(mem, page, i, k), Addr(page, i, l)) == if l + 1 < Cells(i) then Addr(page, i, l + 1) else 0
    decreases Cells(i) - k
  {
    if k + 1 < Cells(i) {
      var m1 := mem[Addr(page, i, k) := Addr(page, i, k + 1)];
      if l > k {
        LinkCellsIs(m1, page, i, k + 1, l);
      } else {
        forall j: nat | k < j < Cells(i) ensures Addr(page, i, k) != Addr(page, i, j) { CellFits(page, i, j); }
        LinkCellsFrame(m1, page, i, k + 1, Addr(page, i, k));
      }
    }
  }

  function AllCells(n: nat): (c: seq<nat>)
    ensures |c| == n && forall t :: 0 <= t < n ==> c[t] == t
  {
    seq(n, t => t)
  }

  function Opened(g: Books, i: nat, page: nat): Books
    requires i < NR_BUCKETS
  {
    g.(frees := g.frees[page := AllCells(Cells(i))])
  }

  /** get_free_page gives a page of its own. */
  ghost predicate NewPage(h: Heap, page: nat) { page > 0 && page % PAGE_SIZE == 0 && page !in h.desc }

  lemma CoveredOf(h: Heap, g: Books)
    requires Kept(h, g)
    ensures Covered(h) && ChainsRight(h)
  {
  }

  lemma NewBucketPage(h: Heap, g: Books, i: nat, page: nat)
    requires Kept(h, g) && i < NR_BUCKETS && NewPage(h, page)
    ensures PageRight(NewBucket(h, i, page), Opened(g, i, page), page)
  {
    hide ChainsRight, PageRight;
    CoveredOf(h, g);
    var (h', g') := (NewBucket(h, i, page), Opened(g, i, page));
    var c := AllCells(Cells(i));
    forall t | 0 <= t < |c| ensures Word(h'.mem, Addr(page, i, c[t])) == Nth(page, i, c, t + 1) {
      var l: nat := t;
      assert c[t] == l && (t + 1 < |c| ==> c[t + 1] == l + 1);
      LinkCellsIs(h.mem, page, i, 0, l);
    }
    forall k: nat | k < Cells(i) ensures CellRight(g', page, i, k) {
      assert c[k] in c;
      if Addr(page, i, k) in g.live { LiveHome(h, g, Addr(page, i, k)); PageOf(page, i, k); }
    }
    PageIs(h', g', page, i, c);
  }

  lemma PageIs(h: Heap, g: Books, p: nat, i: nat, c: seq<nat>)
    requires p in h.desc && h.desc[p].bucket == i < NR_BUCKETS && p > 0 && p % PAGE_SIZE == 0 && p in g.frees
    requires g.frees[p] == c
    requires FreeChain(h.mem, p, i, c) && h.desc[p].freeptr == Nth(p, i, c, 0) && h.desc[p].refcnt + |c| == Cells(i)
    requires forall k: nat :: k < Cells(i) ==> CellRight(g, p, i, k)
    ensures PageRight(h, g, p)
  {
  }

  /** An object lies on a page with a descriptor. */
  lemma LiveHome(h: Heap, g: Books, a: nat)
    requires Kept(h, g) && a in g.live
    ensures a - a % PAGE_SIZE in h.desc && h.desc[a - a % PAGE_SIZE].bucket < NR_BUCKETS
    ensures a in g.home && g.home[a].0 == a - a % PAGE_SIZE && ObjectRight(h, g, a)
  {
    hide ChainsRight;
    assert ObjectRight(h, g, a);
    var (p, k) := g.home[a];
    PageRightOf(h, g, p);
    PageOf(p, h.desc[p].bucket, k);
  }

  lemma NewBucketOther(h: Heap, g: Books, i: nat, page: nat, q: nat)
    requires Kept(h, g) && i < NR_BUCKETS && NewPage(h, page) && q in h.desc
    ensures PageRight(NewBucket(h, i, page), Opened(g, i, page), q)
  {
    hide ChainsRight, PageRight, FreeChain;
    CoveredOf(h, g);
    var (h', g') := (NewBucket(h, i, page), Opened(g, i, page));
    PageParts(h, g, q);
    var (j, c) := (h.desc[q].bucket, g.frees[q]);
    ChainCells(h.mem, q, j, c);
    forall t | 0 <= t < |c| ensures Word(h'.mem, Addr(q, j, c[t])) == Word(h.mem, Addr(q, j, c[t])) {
      forall l: nat | l < Cells(i) ensures Addr(q, j, c[t]) != Addr(page, i, l) {
        if Addr(q, j, c[t]) == Addr(page, i, l) { SameCell(q, j, c[t], page, i, l); }
      }
      LinkCellsFrame(h.mem, page, i, 0, Addr(q, j, c[t]));
    }
    ChainFrame(h.mem, h'.mem, q, j, c);
    forall k: nat | k < Cells(j) ensures CellRight(g', q, j, k) { assert CellRight(g, q, j, k); }
    PageIs(h', g', q, j, c);
  }

  lemma ChainCells(mem: map<nat, nat>, p: nat, i: nat, c: seq<nat>)
    requires i < NR_BUCKETS && FreeChain(mem, p, i, c)
    ensures forall t :: 0 <= t < |c| ==> c[t] < Cells(i)
    ensures forall t, u :: 0 <= t < u < |c| ==> c[t] != c[u]
  {
  }

  lemma PageParts(h: Heap, g: Books, p: nat)
    requires Kept(h, g) && p in h.desc
    ensures h.desc[p].bucket < NR_BUCKETS && p > 0 && p % PAGE_SIZE == 0 && p in g.frees
    ensures FreeChain(h.mem, p, h.desc[p].bucket, g.frees[p])
    ensures h.desc[p].freeptr == Nth(p, h.desc[p].bucket, g.frees[p], 0)
    ensures h.desc[p].refcnt + |g.frees[p]| == Cells(h.desc[p].bucket)
    ensures forall k: nat :: k < Cells(h.desc[p].bucket) ==> CellRight(g, p, h.desc[p].bucket, k)
  {
    hide ChainsRight, FreeChain;
    assert PageRight(h, g, p);
  }

  lemma NewBucketChains(h: Heap, i: nat, page: nat)
    requires ChainsRight(h) && i < NR_BUCKETS && NewPage(h, page)
    ensures ChainsRight(NewBucket(h, i, page))
  {
    hide LinkCells;
    var h' := NewBucket(h, i, page);
    assert page !in h.chains[i] by { if page in h.chains[i] { BucketOf(h, i, page); } }
    forall j, q | 0 <= j < NR_BUCKETS && q in h'.chains[j] ensures q in h'.desc && h'.desc[q].bucket == j {
      if q in h.chains[j] { BucketOf(h, j, q); }
    }
    ChainsFrom(h');
  }

  lemma NewBucketKeeps(h: Heap, g: Books, i: nat, page: nat)
    requires Inv(h, g) && i < NR_BUCKETS && NewPage(h, page)
    ensures Kept(NewBucket(h, i, page), Opened(g, i, page)) && Busy(NewBucket(h, i, page), page)
    ensures page in NewBucket(h, i, page).desc && NewBucket(h, i, page).desc[page].bucket == i
  {
    hide PageRight, ObjectRight, ChainsRight;
    CoveredOf(h, g);
    var (h', g') := (NewBucket(h, i, page), Opened(g, i, page));
    NewBucketChains(h, i, page);
    forall q | q in h'.desc ensures PageRight(h', g', q) {
      if q == page { NewBucketPage(h, g, i, page); } else { NewBucketOther(h, g, i, page, q); }
    }
    forall a | a in g'.live ensures ObjectRight(h', g', a) { NewBucketObject(h, g, i, page, a); }
    assert Busy(h', page) by { NoPageZero(h, g); }
  }

  lemma NoPageZero(h: Heap, g: Books)
    requires Kept(h, g)
    ensures 0 !in h.desc
  {
    hide ChainsRight;
    forall p | p in h.desc ensures p > 0 { PageRightOf(h, g, p); }
  }

  lemma NewBucketObject(h: Heap, g: Books, i: nat, page: nat, a: nat)
    requires Kept(h, g) && i < NR_BUCKETS && NewPage(h, page) && a in g.live
    ensures ObjectRight(NewBucket(h, i, page), Opened(g, i, page), a)
  {
    hide PageRight, ChainsRight;
    assert ObjectRight(h, g, a);
  }

  // ---- malloc as a whole ----

  lemma {:induction false} BucketForIs(len: nat, i: nat)
    requires i <= NR_BUCKETS
    ensures var r := BucketFor(len, i);
            && (r < NR_BUCKETS ==> Size(r) >= len) && (forall j :: i <= j < r ==> Size(j) < len)
    decreases NR_BUCKETS - i
  {
    if i < NR_BUCKETS && Size(i) < len { BucketForIs(len, i + 1); }
  }

  /** The words of every object are as before. */
  ghost predicate SameObjects(live: map<nat, nat>, mem: map<nat, nat>, mem': map<nat, nat>) {
    forall a, w: nat :: a in live && a <= w < a + live[a] ==> Word(mem', w) == Word(mem, w)
  }

  /** Objects lie within one page. */
  lemma WithinPage(h: Heap, g: Books, a: nat)
    requires Kept(h, g) && a in g.live
    ensures var p := a - a % PAGE_SIZE; p in h.desc && p <= a && a + g.live[a] <= p + PAGE_SIZE
  {
    LiveHome(h, g, a);
    var (p, k) := g.home[a];
    CellFits(p, h.desc[p].bucket, k);
  }

  lemma NewBucketObjects(h: Heap, g: Books, i: nat, page: nat)
    requires Kept(h, g) && Covered(h) && i < NR_BUCKETS && NewPage(h, page)
    ensures SameObjects(g.live, h.mem, NewBucket(h, i, page).mem)
  {
    hide Kept, LinkCells;
    forall a, w: nat | a in g.live && a <= w < a + g.live[a]
      ensures Word(NewBucket(h, i, page).mem, w) == Word(h.mem, w)
    {
      WithinPage(h, g, a);
      PageRightOf(h, g, a - a % PAGE_SIZE);
      forall l: nat | l < Cells(i) ensures w != Addr(page, i, l) { CellFits(page, i, l); }
      LinkCellsFrame(h.mem, page, i, 0, w);
    }
  }

  /** malloc hands out a cell of the smallest bucket that fits, which is no live object, and touches no
      live object; it panics only for more than a page, or when the system has no page to give. */
  lemma MallocKeeps(h: Heap, g: Books, len: nat, page: nat, more: bool) returns (g': Books)
    requires Inv(h, g) && Covered(h) && (page == 0 || NewPage(h, page))
    ensures Malloc(h, len, page, more).Panic? ==> len > PAGE_SIZE || page == 0 || (h.spare == 0 && !more)
    ensures Malloc(h, len, page, more).Done? ==>
              var (h', a) := Malloc(h, len, page, more).value;
              && Inv(h', g') && a !in g.live && g'.live == g.live[a := len] && SameObjects(g.live, h.mem, h'.mem)
  {
    hide Kept, Busy, PageRight, ObjectRight, Take, NewBucket, SameObjects;
    BucketForIs(len, 0);
    var i := BucketFor(len, 0);
    g' := g;
    if i < NR_BUCKETS {
      var p := Roomy(h.desc, h.chains[i]);
      InvKept(h, g);
      CoveredOf(h, g);
      if p != 0 {
        NotEmpty(h, g, p);
        BucketOf(h, i, p);
        TakeKeeps(h, g, p, len);
        TakeDesc(h, p);
        SameMem(g.live, h.mem);
        g' := Taken(g, h, p, len);
      } else if !((h.spare == 0 && !more) || page == 0) {
        NewBucketKeeps(h, g, i, page);
        var (h1, g1) := (NewBucket(h, i, page), Opened(g, i, page));
        NotEmpty(h1, g1, page);
        TakeKeeps(h1, g1, page, len);
        TakeDesc(h1, page);
        NewBucketObjects(h, g, i, page);
        g' := Taken(g1, h1, page, len);
      }
    }
  }

  lemma InvKept(h: Heap, g: Books)
    requires Inv(h, g)
    ensures Kept(h, g) && forall p :: p in h.desc ==> Busy(h, p) && h.desc[p].refcnt >= 1
  {
    NoPageZero(h, g);
  }

  lemma BucketOf(h: Heap, i: nat, p: nat)
    requires ChainsRight(h) && i < NR_BUCKETS && p in h.chains[i]
    ensures p in h.desc && h.desc[p].bucket == i
  {
  }

  lemma SameMem(live: map<nat, nat>, mem: map<nat, nat>)
    ensures SameObjects(live, mem, mem)
  {
  }

  // ---- free_s ----

  ghost function Returned(g: Books, obj: nat, keep: bool): Books
    requires obj in g.home && g.home[obj].0 in g.frees
  {
    var (p, k) := g.home[obj];
    Books(if keep then g.frees[p := [k] + g.frees[p]] else g.frees - {p}, g.live - {obj}, g.home)
  }

  lemma {:induction false} SearchIs(h: Heap, page: nat, size: nat, i: nat)
    requires ChainsRight(h) && i <= NR_BUCKETS
    ensures page !in h.desc ==> Search(h.chains, page, size, i) == NR_BUCKETS
    ensures page in h.desc && h.desc[page].bucket >= i && Size(h.desc[page].bucket) >= size ==>
              Search(h.chains, page, size, i) == h.desc[page].bucket
    decreases NR_BUCKETS - i
  {
    if i < NR_BUCKETS {
      SearchIs(h, page, size, i + 1);
      if page in h.chains[i] { BucketOf(h, i, page); }
    }
  }

  /** free_s of an address on no page of the allocator panics. */
  lemma FreeStranger(h: Heap, g: Books, obj: nat, size: nat)
    requires Inv(h, g) && Covered(h) && obj - obj % PAGE_SIZE !in h.desc
    ensures Free(h, obj, size).Panic?
  {
    SearchIs(h, obj - obj % PAGE_SIZE, size, 0);
  }

  /** What is known of an object that is freed. */
  lemma FreedObject(h: Heap, g: Books, obj: nat, size: nat) returns (p: nat, k: nat)
    requires Kept(h, g) && obj in g.live && size <= g.live[obj]
    ensures p == obj - obj % PAGE_SIZE && p in h.desc && p in g.frees && obj in g.home && g.home[obj] == (p, k)
    ensures h.desc[p].bucket < NR_BUCKETS && k < Cells(h.desc[p].bucket) && obj == Addr(p, h.desc[p].bucket, k)
    ensures k !in g.frees[p]
    ensures |h.chains| == NR_BUCKETS && Search(h.chains, p, size, 0) == h.desc[p].bucket
    ensures h.desc[p].refcnt > 0 ==> |g.frees[p]| < Cells(h.desc[p].bucket)
  {
    hide PageRight, ChainsRight;
    LiveHome(h, g, obj);
    p, k := g.home[obj].0, g.home[obj].1;
    PageParts(h, g, p);
    assert CellRight(g, p, h.desc[p].bucket, k);
    CoveredOf(h, g);
    SearchIs(h, p, size, 0);
  }

  /** The memory and the books after freeing, on the page itself. */
  lemma FreePage(h: Heap, g: Books, obj: nat, h': Heap)
    requires Kept(h, g) && obj in g.live && obj in g.home && g.home[obj].0 in g.frees && g.home[obj].0 in h.desc
    requires var (p, k) := g.home[obj];
             && h.desc[p].refcnt > 1
             && h'.mem == h.mem[obj := h.desc[p].freeptr] && p in h'.desc
             && h'.desc[p] == h.desc[p].(freeptr := obj, refcnt := h.desc[p].refcnt - 1)
    ensures PageRight(h', Returned(g, obj, true), g.home[obj].0)
  {
    hide ChainsRight, PageRight, Kept, FreeChain;
    var p0, k := FreedObject(h, g, obj, 0);
    var p := g.home[obj].0;
    PageParts(h, g, p);
    var (i, c, g') := (h.desc[p].bucket, g.frees[p], Returned(g, obj, true));
    FreeLink(h.mem, p, i, c, k, h.desc[p].freeptr);
    forall j: nat | j < Cells(i) ensures CellRight(g', p, i, j) {
      assert CellRight(g, p, i, j);
      if Addr(p, i, j) == obj { SameCell(p, i, j, p, i, k); }
      assert j in [k] + c <==> j == k || j in c;
    }
    PageIs(h', g', p, i, [k] + c);
  }

  /** A cell put in front of the chain. */
  lemma FreeLink(mem: map<nat, nat>, p: nat, i: nat, c: seq<nat>, k: nat, first: nat)
    requires i < NR_BUCKETS && FreeChain(mem, p, i, c) && k < Cells(i) && k !in c && first == Nth(p, i, c, 0)
    requires p % PAGE_SIZE == 0
    ensures FreeChain(mem[Addr(p, i, k) := first], p, i, [k] + c)
  {
    var (mem', d) := (mem[Addr(p, i, k) := first], [k] + c);
    forall t | 0 <= t < |d| ensures d[t] < Cells(i) && Word(mem', Addr(p, i, d[t])) == Nth(p, i, d, t + 1) {
      if t > 0 {
        assert c[t - 1] in c;
        if Addr(p, i, d[t]) == Addr(p, i, k) { SameCell(p, i, d[t], p, i, k); }
      }
    }
    forall t, u | 0 <= t < u < |d| ensures d[t] != d[u] { assert c[u - 1] in c; }
  }

  lemma FreeOtherPage(h: Heap, g: Books, obj: nat, keep: bool, h': Heap, q: nat)
    requires Kept(h, g) && obj in g.live && obj in g.home && g.home[obj].0 in g.frees && g.home[obj].0 in h.desc
    requires q in h.desc && q != g.home[obj].0 && q in h'.desc && h'.desc[q] == h.desc[q]
    requires h'.mem == h.mem[obj := h.desc[g.home[obj].0].freeptr]
    ensures PageRight(h', Returned(g, obj, keep), q)
  {
    hide ChainsRight, PageRight, Kept, FreeChain;
    var p, k := FreedObject(h, g, obj, 0);
    PageParts(h, g, q);
    PageRightOf(h, g, p);
    var (j, c, g') := (h.desc[q].bucket, g.frees[q], Returned(g, obj, keep));
    ChainCells(h.mem, q, j, c);
    forall t | 0 <= t < |c| ensures Word(h'.mem, Addr(q, j, c[t])) == Word(h.mem, Addr(q, j, c[t])) {
      if Addr(q, j, c[t]) == obj { SameCell(q, j, c[t], p, h.desc[p].bucket, k); }
    }
    ChainFrame(h.mem, h'.mem, q, j, c);
    forall l: nat | l < Cells(j) ensures CellRight(g', q, j, l) {
      assert CellRight(g, q, j, l);
      if Addr(q, j, l) == obj { SameCell(q, j, l, p, h.desc[p].bucket, k); }
    }
    PageIs(h', g', q, j, c);
  }

  /** The count is 1 exactly when no other object is left on the page. */
  lemma LastObject(h: Heap, g: Books, obj: nat)
    requires Inv(h, g) && obj in g.live
    ensures obj - obj % PAGE_SIZE in h.desc
    ensures h.desc[obj - obj % PAGE_SIZE].refcnt == 1 <==>
              forall a :: a in g.live && a - a % PAGE_SIZE == obj - obj % PAGE_SIZE ==> a == obj
  {
    hide Inv, Kept, Busy, PageRight, ObjectRight, CellRight, FreeChain, Nth;
    InvKept(h, g);
    var p, k := FreedObject(h, g, obj, 0);
    PageParts(h, g, p);
    var (i, c) := (h.desc[p].bucket, [k] + g.frees[p]);
    ChainCells(h.mem, p, i, g.frees[p]);
    assert forall t :: 1 <= t < |c| ==> c[t] == g.frees[p][t - 1] && c[t] in g.frees[p];
    Pigeonhole(c, Cells(i));
    if h.desc[p].refcnt == 1 {
      forall a | a in g.live && a - a % PAGE_SIZE == p ensures a == obj { OnlyObject(h, g, p, k, a); }
    } else {
      var j: nat :| j < Cells(i) && j !in c;
      AnotherObject(g, p, i, j, k, obj);
    }
  }

  /** A cell that is not free and not this object's holds another object of the page. */
  lemma AnotherObject(g: Books, p: nat, i: nat, j: nat, k: nat, obj: nat)
    requires i < NR_BUCKETS && p % PAGE_SIZE == 0 && p > 0 && p in g.frees && j < Cells(i) && k < Cells(i)
    requires j !in [k] + g.frees[p]
    requires CellRight(g, p, i, j) && obj == Addr(p, i, k)
    ensures exists a :: a in g.live && a - a % PAGE_SIZE == p && a != obj
  {
    assert j in [k] + g.frees[p] <==> j == k || j in g.frees[p];
    PageOf(p, i, j);
    if Addr(p, i, j) == obj { SameCell(p, i, j, p, i, k); }
  }

  lemma OnlyObject(h: Heap, g: Books, p: nat, k: nat, a: nat)
    requires Kept(h, g) && p in h.desc && p in g.frees && h.desc[p].bucket < NR_BUCKETS && a in g.live
    requires a - a % PAGE_SIZE == p
    requires forall j: nat :: j < Cells(h.desc[p].bucket) ==> j in [k] + g.frees[p]
    ensures a == Addr(p, h.desc[p].bucket, k)
  {
    hide Kept, PageRight;
    LiveHome(h, g, a);
    var j := g.home[a].1;
    PageParts(h, g, p);
    assert CellRight(g, p, h.desc[p].bucket, j);
    assert j in [k] + g.frees[p];
  }

  lemma KeepChains(h: Heap, p: nat, d: Desc, mem: map<nat, nat>)
    requires ChainsRight(h) && p in h.desc && d.bucket == h.desc[p].bucket
    ensures ChainsRight(h.(mem := mem, desc := h.desc[p := d]))
  {
  }

  lemma {:induction false} WithoutDistinct(c: seq<nat>, p: nat)
    requires NoRepeat(c)
    ensures NoRepeat(Without(c, p))
  {
    if c != [] {
      WithoutDistinct(c[1..], p);
      if c[0] != p { assert c[0] !in Without(c[1..], p); }
    }
  }

  lemma DropChains(h: Heap, p: nat, mem: map<nat, nat>, spare: nat)
    requires ChainsRight(h) && p in h.desc
    ensures h.desc[p].bucket < NR_BUCKETS
    ensures var i := h.desc[p].bucket;
            ChainsRight(Heap(h.chains[i := Without(h.chains[i], p)], h.desc - {p}, mem, spare))
  {
    hide Without;
    var i := h.desc[p].bucket;
    WithoutDistinct(h.chains[i], p);
    var h' := Heap(h.chains[i := Without(h.chains[i], p)], h.desc - {p}, mem, spare);
    forall j, q | 0 <= j < NR_BUCKETS && q in h'.chains[j] ensures q in h'.desc && h'.desc[q].bucket == j {
      BucketOf(h, j, q);
    }
    ChainsFrom(h');
  }

  lemma ChainsFrom(h: Heap)
    requires |h.chains| == NR_BUCKETS
    requires forall j, q :: 0 <= j < NR_BUCKETS && q in h.chains[j] ==> q in h.desc && h.desc[q].bucket == j
    requires forall p :: p in h.desc ==> h.desc[p].bucket < NR_BUCKETS && p in h.chains[h.desc[p].bucket]
    requires forall i :: 0 <= i < NR_BUCKETS ==> NoRepeat(h.chains[i])
    ensures ChainsRight(h)
  {
    forall j, k | 0 <= j < NR_BUCKETS && 0 <= k < |h.chains[j]| ensures h.chains[j][k] in h.desc {
      assert h.chains[j][k] in h.chains[j];
    }
  }

  /** What free_s changes in the tables: the page's entry, or that the page is gone. */
  ghost predicate FreeTables(h: Heap, h': Heap, p: nat, obj: nat)
    requires p in h.desc && h.desc[p].refcnt >= 1
  {
    var d := h.desc[p];
    && h'.mem == h.mem[obj := d.freeptr]
    && (if d.refcnt == 1 then h'.desc == h.desc - {p}
          else h'.desc == h.desc[p := d.(freeptr := obj, refcnt := d.refcnt - 1)])
  }

  lemma FreeChanges(h: Heap, g: Books, obj: nat, size: nat) returns (h': Heap, page: nat)
    requires Inv(h, g) && Covered(h) && obj in g.live && size <= g.live[obj]
    ensures var p := obj - obj % PAGE_SIZE;
            && p in h.desc && h.desc[p].refcnt >= 1 && p > 0 && obj in g.home && g.home[obj].0 == p && p in g.frees
            && Free(h, obj, size) == Done((h', page)) && page == (if h.desc[p].refcnt == 1 then p else 0)
            && FreeTables(h, h', p, obj) && ChainsRight(h')
  {
    hide Inv, Kept, Busy, PageRight, ObjectRight, ChainsRight, Covered, Search, Without, CellRight, FreeChain, Free,
         Nth;
    InvKept(h, g);
    CoveredOf(h, g);
    var p, k := FreedObject(h, g, obj, size);
    PageParts(h, g, p);
    h', page := FreeIs(h, obj, size, h.desc[p].bucket);
  }

  lemma FreeIs(h: Heap, obj: nat, size: nat, i: nat) returns (h': Heap, page: nat)
    requires ChainsRight(h) && Covered(h) && i < NR_BUCKETS && Search(h.chains, obj - obj % PAGE_SIZE, size, 0) == i
    requires var p := obj - obj % PAGE_SIZE; p in h.desc && h.desc[p].refcnt >= 1 && h.desc[p].bucket == i
    ensures var p := obj - obj % PAGE_SIZE;
            Free(h, obj, size) == Done((h', page)) && page == (if h.desc[p].refcnt == 1 then p else 0) &&
                FreeTables(h, h', p, obj) && ChainsRight(h')
  {
    hide Search, Without, ChainsRight;
    var p := obj - obj % PAGE_SIZE;
    h', page := Free(h, obj, size).value.0, Free(h, obj, size).value.1;
    if h.desc[p].refcnt == 1 {
      DropChains(h, p, h'.mem, h.spare + 1);
    } else {
      KeepChains(h, p, h.desc[p].(freeptr := obj, refcnt := h.desc[p].refcnt - 1), h'.mem);
    }
  }

  lemma FreePages(h: Heap, g: Books, obj: nat, h': Heap, q: nat)
    requires Kept(h, g) && obj in g.live && obj in g.home && g.home[obj].0 in g.frees && g.home[obj].0 in h.desc
    requires h.desc[g.home[obj].0].refcnt >= 1 && FreeTables(h, h', g.home[obj].0, obj) && q in h'.desc
    ensures PageRight(h', Returned(g, obj, h.desc[g.home[obj].0].refcnt != 1), q)
  {
    hide Kept, PageRight;
    if q == g.home[obj].0 {
      FreePage(h, g, obj, h');
    } else {
      FreeOtherPage(h, g, obj, h.desc[g.home[obj].0].refcnt != 1, h', q);
    }
  }

  /** Freeing an object keeps everything apart; the page goes back to the system exactly when
      its last object is freed, and no other object's words change. */
  lemma FreeKeeps(h: Heap, g: Books, obj: nat, size: nat) returns (g': Books)
    requires Inv(h, g) && Covered(h) && obj in g.live && size <= g.live[obj]
    ensures Free(h, obj, size).Done?
    ensures var (h', page) := Free(h, obj, size).value;
            && Inv(h', g') && g'.live == g.live - {obj} && SameObjects(g'.live, h.mem, h'.mem)
            && (page != 0 <==> forall a :: a in g.live && a - a % PAGE_SIZE == obj - obj % PAGE_SIZE ==> a == obj)
            && (page != 0 ==> page == obj - obj % PAGE_SIZE && page !in h'.desc)
  {
    hide Inv, Kept, Busy, PageRight, ObjectRight, SameObjects, ChainsRight, Free, Covered;
    InvKept(h, g);
    var h', page := FreeChanges(h, g, obj, size);
    LastObject(h, g, obj);
    var p := obj - obj % PAGE_SIZE;
    g' := Returned(g, obj, h.desc[p].refcnt != 1);
    FreeWords(h, g, obj, h.desc[p].freeptr);
    forall q | q in h'.desc ensures PageRight(h', g', q) { FreePages(h, g, obj, h', q); }
    forall a | a in g'.live ensures ObjectRight(h', g', a) { FreeObjects(h, g, obj, h', g', a); }
    FreeBusy(h, h', p);
    InvFrom(h', g');
  }

  lemma InvFrom(h: Heap, g: Books)
    requires ChainsRight(h) && Busy(h, 0)
    requires forall p :: p in h.desc ==> PageRight(h, g, p)
    requires forall a :: a in g.live ==> ObjectRight(h, g, a)
    ensures Inv(h, g)
  {
  }

  lemma FreeBusy(h: Heap, h': Heap, p: nat)
    requires (forall q :: q in h.desc ==> h.desc[q].refcnt >= 1) && forall q :: q in h'.desc ==>
               q in h.desc && (h'.desc[q].refcnt == h.desc[q].refcnt ||
                   (h.desc[q].refcnt > 1 && h'.desc[q].refcnt == h.desc[q].refcnt - 1))
    ensures Busy(h', 0)
  {
  }

  lemma FreeObjects(h: Heap, g: Books, obj: nat, h': Heap, g': Books, a: nat)
    requires Kept(h, g) && obj in g.live && obj - obj % PAGE_SIZE in h.desc && a in g.live && a != obj && a in g'.live
    requires g'.live[a] == g.live[a] && g'.home == g.home
    requires a - a % PAGE_SIZE != obj - obj % PAGE_SIZE ==> a - a % PAGE_SIZE in h.desc ==> a - a % PAGE_SIZE in h'.desc
    requires a - a % PAGE_SIZE == obj - obj % PAGE_SIZE ==> a - a % PAGE_SIZE in h'.desc
    requires forall q :: q in h'.desc ==> q in h.desc && h'.desc[q].bucket == h.desc[q].bucket
    ensures ObjectRight(h', g', a)
  {
    hide Kept;
    LiveHome(h, g, a);
  }

  /** The only word free_s writes is in the object freed. */
  lemma FreeWords(h: Heap, g: Books, obj: nat, v: nat)
    requires Kept(h, g) && obj in g.live
    ensures SameObjects(g.live - {obj}, h.mem, h.mem[obj := v])
  {
    hide Kept;
    forall a, w: nat | a in g.live - {obj} && a <= w < a + g.live[a]
      ensures Word(h.mem[obj := v], w) == Word(h.mem, w)
    {
      if a < obj { Disjoint(h, g, a, obj); }
    }
  }

  /** Two objects do not overlap, not even the unused ends of their cells: an object is followed by
      the rest of its cell before the next can start. */
  lemma Disjoint(h: Heap, g: Books, a: nat, b: nat)
    requires Kept(h, g) && a in g.live && b in g.live && a < b
    ensures a + g.live[a] <= b
  {
    hide Kept;
    LiveHome(h, g, a);
    LiveHome(h, g, b);
    var (p, k) := g.home[a];
    var (q, l) := g.home[b];
    CellFits(p, h.desc[p].bucket, k);
    CellFits(q, h.desc[q].bucket, l);
    if p == q {
      if k >= l { CellFits(p, h.desc[p].bucket, k); } else { CellFits(p, h.desc[p].bucket, l); }
    } else {
      PageRightOf(h, g, p);
      PageRightOf(h, g, q);
    }
  }
}

/** When malloc takes a page from the system and when it fails, when free_s fails, and what the two come to together
    (linux-0.11/lib/malloc.c:117-231). */
module HeapPages {
  import opened Basics
  import opened Buckets
  import opened BucketLemmas
  import opened BucketRuns

  /** Some page with objects of the i-th size has a cell that is no object. */
  ghost predicate HasRoom(h: Heap, live: map<nat, nat>, i: nat)
    requires i < NR_BUCKETS
  {
    exists p, k: nat :: p in h.desc && h.desc[p].bucket == i && k < Cells(i) && Addr(p, i, k) !in live
  }

  lemma {:induction false} RoomyNone(desc: map<nat, Desc>, chain: seq<nat>)
    requires forall k :: 0 <= k < |chain| ==> chain[k] in desc && chain[k] > 0
    ensures Roomy(desc, chain) == 0 <==> forall k :: 0 <= k < |chain| ==> desc[chain[k]].freeptr == 0
  {
    if chain != [] { RoomyNone(desc, chain[1..]); }
  }

  lemma PageHasRoom(h: Heap, g: Books, p: nat)
    requires Kept(h, g) && p in h.desc
    ensures h.desc[p].bucket < NR_BUCKETS
    ensures h.desc[p].freeptr != 0 <==>
              exists k: nat :: k < Cells(h.desc[p].bucket) && Addr(p, h.desc[p].bucket, k) !in g.live
  {
    hide Kept, Addr;
    PageParts(h, g, p);
    NotEmpty(h, g, p);
    var (i, c) := (h.desc[p].bucket, g.frees[p]);
    if c != [] {
      assert CellRight(g, p, i, c[0]) && c[0] in c;
    } else {
      forall k: nat | k < Cells(i) ensures Addr(p, i, k) in g.live { assert CellRight(g, p, i, k); }
    }
  }

  lemma RoomyIs(h: Heap, g: Books, i: nat)
    requires Inv(h, g) && Covered(h) && i < NR_BUCKETS
    ensures Roomy(h.desc, h.chains[i]) != 0 <==> HasRoom(h, g.live, i)
  {
    hide Kept, Busy, Addr, Roomy;
    InvKept(h, g);
    CoveredOf(h, g);
    var chain := h.chains[i];
    forall k | 0 <= k < |chain| ensures chain[k] in h.desc && chain[k] > 0 && h.desc[chain[k]].bucket == i {
      BucketOf(h, i, chain[k]);
      PageParts(h, g, chain[k]);
    }
    RoomyNone(h.desc, chain);
    if HasRoom(h, g.live, i) {
      var p, k: nat :| p in h.desc && h.desc[p].bucket == i && k < Cells(i) && Addr(p, i, k) !in g.live;
      PageHasRoom(h, g, p);
      OnChain(h, p);
    } else {
      forall k | 0 <= k < |chain| ensures h.desc[chain[k]].freeptr == 0 { PageHasRoom(h, g, chain[k]); }
    }
  }

  lemma OnChain(h: Heap, p: nat)
    requires ChainsRight(h) && p in h.desc
    ensures h.desc[p].bucket < NR_BUCKETS && p in h.chains[h.desc[p].bucket]
  {
  }

  /** malloc fails exactly for more than a page, or if no page has room and the system gives none, for objects or for
      descriptors. It takes a page exactly if none has room; the object is on a page for the smallest size that fits,
      and descriptors are fetched only when none is left. */
  lemma MallocExactly(h: Heap, g: Books, len: nat, page: nat, more: bool)
    requires Inv(h, g) && Covered(h) && (page == 0 || NewPage(h, page))
    ensures var (r, i) := (Malloc(h, len, page, more), BucketFor(len, 0));
            && (i < NR_BUCKETS <==> len <= PAGE_SIZE)
            && (r.Panic? <==>
                  len > PAGE_SIZE || (!HasRoom(h, g.live, i) && (page == 0 || (h.spare == 0 && !more))))
            && (r.Done? ==>
                  var (h', a) := r.value;
                  var (p, full) := (a - a % PAGE_SIZE, !HasRoom(h, g.live, i));
                  && h'.desc.Keys == (if full then h.desc.Keys + {page} else h.desc.Keys) && (full ==> p == page)
                  && p in h'.desc && h'.desc[p].bucket == i
                  && Size(i) >= len && (forall j :: 0 <= j < i ==> Size(j) < len)
                  && h'.spare == if !full then h.spare else if h.spare == 0 then DESCS_PER_PAGE - 1 else h.spare - 1)
  {
    hide Kept, Busy, PageRight, ObjectRight, Take, NewBucket, HasRoom, Roomy, Addr;
    BucketForIs(len, 0);
    var i := BucketFor(len, 0);
    if i < NR_BUCKETS {
      InvKept(h, g);
      CoveredOf(h, g);
      RoomyIs(h, g, i);
      var p := Roomy(h.desc, h.chains[i]);
      if p != 0 {
        FromPage(h, g, i, p);
      } else if page != 0 && (h.spare != 0 || more) {
        FromNew(h, g, i, page);
      }
    }
  }

  lemma FromPage(h: Heap, g: Books, i: nat, p: nat)
    requires Inv(h, g) && Covered(h) && i < NR_BUCKETS && p in h.chains[i] && p in h.desc && h.desc[p].freeptr != 0
    ensures var (h', a) := Take(h, p);
            && h'.desc.Keys == h.desc.Keys && h'.spare == h.spare
            && a - a % PAGE_SIZE == p && h'.desc[p].bucket == i
  {
    hide Kept, Busy, PageRight, ObjectRight, Addr;
    InvKept(h, g);
    CoveredOf(h, g);
    BucketOf(h, i, p);
    NotEmpty(h, g, p);
    PageRightOf(h, g, p);
    PageOf(p, i, g.frees[p][0]);
  }

  lemma FromNew(h: Heap, g: Books, i: nat, page: nat)
    requires Inv(h, g) && Covered(h) && i < NR_BUCKETS && NewPage(h, page)
    ensures page in NewBucket(h, i, page).desc
    ensures var (h', a) := Take(NewBucket(h, i, page), page);
            && h'.desc.Keys == h.desc.Keys + {page} && a == page && a - a % PAGE_SIZE == page
            && h'.desc[page].bucket == i
            && h'.spare == if h.spare == 0 then DESCS_PER_PAGE - 1 else h.spare - 1
  {
    hide LinkCells;
  }

  /** free_s gives back the descriptor with the page. */
  lemma FreePage(h: Heap, g: Books, obj: nat, size: nat)
    requires Inv(h, g) && Covered(h) && obj in g.live && size <= g.live[obj]
    ensures Free(h, obj, size).Done?
    ensures var (h', page) := Free(h, obj, size).value;
            && h'.desc.Keys == (if page != 0 then h.desc.Keys - {page} else h.desc.Keys)
            && h'.spare == (if page != 0 then h.spare + 1 else h.spare)
  {
    hide Inv, Kept, Search, Without;
    var h', page := FreeChanges(h, g, obj, size);
  }

  /** free_s panics if the size given is more than any object on the page has. */
  lemma FreeTooLarge(h: Heap, g: Books, obj: nat, size: nat)
    requires Inv(h, g) && Covered(h) && obj - obj % PAGE_SIZE in h.desc
    ensures h.desc[obj - obj % PAGE_SIZE].bucket < NR_BUCKETS
    ensures size > Size(h.desc[obj - obj % PAGE_SIZE].bucket) ==> Free(h, obj, size).Panic?
  {
    hide Kept, Busy;
    InvKept(h, g);
    CoveredOf(h, g);
    OnChain(h, obj - obj % PAGE_SIZE);
    if size > Size(h.desc[obj - obj % PAGE_SIZE].bucket) { TooSmall(h, obj - obj % PAGE_SIZE, size, 0); }
  }

  lemma {:induction false} TooSmall(h: Heap, page: nat, size: nat, i: nat)
    requires ChainsRight(h) && i <= NR_BUCKETS && page in h.desc
    requires h.desc[page].bucket < NR_BUCKETS && size > Size(h.desc[page].bucket)
    ensures Search(h.chains, page, size, i) == NR_BUCKETS
    decreases NR_BUCKETS - i
  {
    if i < NR_BUCKETS {
      TooSmall(h, page, size, i + 1);
      if page in h.chains[i] { BucketOf(h, i, page); }
    }
  }

  /** A page that is kept has an object. */
  lemma PageHasObject(h: Heap, g: Books, p: nat) returns (a: nat)
    requires Inv(h, g) && p in h.desc
    ensures a in g.live && a - a % PAGE_SIZE == p
  {
    hide Kept, Busy, Addr, Cells;
    InvKept(h, g);
    PageParts(h, g, p);
    var (i, c) := (h.desc[p].bucket, g.frees[p]);
    ChainCells(h.mem, p, i, c);
    Pigeonhole(c, Cells(i));
    var k: nat :| k < Cells(i) && k !in c;
    assert CellRight(g, p, i, k);
    a := Addr(p, i, k);
    PageOf(p, i, k);
  }

  lemma BackAgain(h: Heap, g: Books, len: nat, page: nat, more: bool) returns (g1: Books, g2: Books)
    requires Inv(h, g) && Covered(h) && (page == 0 || NewPage(h, page)) && Malloc(h, len, page, more).Done?
    ensures var (h1, a) := Malloc(h, len, page, more).value;
            && Inv(h1, g1) && Covered(h1) && g1.live == g.live[a := len] && a !in g.live && Free(h1, a, len).Done?
            && var h2 := Free(h1, a, len).value.0;
               Inv(h2, g2) && g2.live == g.live && h2.desc.Keys == h.desc.Keys
  {
    hide Inv, Malloc, Free, Covered, HasRoom;
    var (h1, a) := Malloc(h, len, page, more).value;
    g1 := MallocKeeps(h, g, len, page, more);
    MallocExactly(h, g, len, page, more);
    Covers(h1, g1);
    g2 := FreeKeeps(h1, g1, a, len);
    FreePage(h1, g1, a, len);
    assert g.live[a := len] - {a} == g.live;
    var p := a - a % PAGE_SIZE;
    if HasRoom(h, g.live, BucketFor(len, 0)) {
      var b := PageHasObject(h, g, p);
      assert b in g1.live;
    } else {
      forall b | b in g1.live && b - b % PAGE_SIZE == p ensures b == a {
        if b != a { HomeOf(h, g, b); }
      }
      assert (h.desc.Keys + {page}) - {page} == h.desc.Keys;
    }
  }

  lemma Covers(h: Heap, g: Books)
    requires Inv(h, g)
    ensures Covered(h)
  {
    hide Kept, Busy;
    InvKept(h, g);
    CoveredOf(h, g);
  }

  lemma HomeOf(h: Heap, g: Books, a: nat)
    requires Inv(h, g) && a in g.live
    ensures a - a % PAGE_SIZE in h.desc
  {
    hide Kept, Busy;
    InvKept(h, g);
    LiveHome(h, g, a);
  }

  /** malloc and free_s of what it gave: the objects, the pages and the number of descriptors in use are as before. */
  lemma RoundTrip(s: System, len: nat, page: nat, more: bool)
    requires Good(s) && Enabled(s, Alloc(len, page, more))
    ensures Covered(s.h) && Malloc(s.h, len, page, more).Done?
    ensures var (a, s1) := (Malloc(s.h, len, page, more).value.1, Apply(s, Alloc(len, page, more)));
            && Good(s1) && s1.live == s.live[a := len] && a !in s.live && Enabled(s1, Release(a, len))
            && var s2 := Apply(s1, Release(a, len));
               s2.live == s.live && s2.h.desc.Keys == s.h.desc.Keys
  {
    hide Inv, Malloc, Free;
    GoodCovered(s);
    var g :| Inv(s.h, g) && g.live == s.live;
    var g1, g2 := BackAgain(s.h, g, len, page, more);
    var s1 := Apply(s, Alloc(len, page, more));
    assert s1 == System(Malloc(s.h, len, page, more).value.0, s.live[Malloc(s.h, len, page, more).value.1 := len]);
    assert Inv(s1.h, g1) && g1.live == s1.live;
  }

  /** Users can free and store into the objects they have, and that is what happens. */
  lemma UsersMay(s: System, obj: nat, size: nat, w: nat, v: nat)
    requires Good(s) && obj in s.live
    ensures size <= s.live[obj] ==>
              Enabled(s, Release(obj, size)) && Apply(s, Release(obj, size)).live == s.live - {obj}
    ensures obj <= w < obj + s.live[obj] ==>
              && Enabled(s, Store(obj, w, v)) && Apply(s, Store(obj, w, v)).live == s.live
              && Word(Apply(s, Store(obj, w, v)).h.mem, w) == v
  {
    hide Inv, Malloc, Free;
    GoodCovered(s);
  }
}

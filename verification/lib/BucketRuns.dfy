/** Whole runs of malloc, free_s and the users of the objects. */
module BucketRuns {
  import opened Basics
  import opened Buckets
  import opened BucketLemmas

  /** The heap, and the objects handed out with the lengths asked for. */
  datatype System = System(h: Heap, live: map<nat, nat>)

  /** Store: a user writes a word inside one of its objects. */
  datatype Event = Alloc(len: nat, page: nat, more: bool) | Release(obj: nat, size: nat)
      | Store(obj: nat, w: nat, v: nat)

  ghost predicate Good(s: System) { exists g :: Inv(s.h, g) && g.live == s.live }

  /** malloc is called as long as it does not panic; users free and store into objects they have. */
  ghost predicate Enabled(s: System, e: Event)
    requires Good(s)
  {
    GoodCovered(s);
    match e
    case Alloc(len, page, more) => (page == 0 || NewPage(s.h, page)) && Malloc(s.h, len, page, more).Done?
    case Release(obj, size) => obj in s.live && size <= s.live[obj]
    case Store(obj, w, v) => obj in s.live && obj <= w < obj + s.live[obj]
  }

  lemma GoodCovered(s: System)
    requires Good(s)
    ensures Covered(s.h)
  {
    hide Inv;
    var g :| Inv(s.h, g) && g.live == s.live;
    InvKept(s.h, g);
    CoveredOf(s.h, g);
  }

  /** free_s never panics on an object that has not been freed. */
  lemma FreeDone(s: System, obj: nat, size: nat)
    requires Good(s) && obj in s.live && size <= s.live[obj]
    ensures Covered(s.h) && Free(s.h, obj, size).Done?
  {
    hide Inv, Free;
    GoodCovered(s);
    var g :| Inv(s.h, g) && g.live == s.live;
    var g' := FreeKeeps(s.h, g, obj, size);
  }

  ghost function Apply(s: System, e: Event): System
    requires Good(s) && Enabled(s, e)
  {
    GoodCovered(s);
    match e
    case Alloc(len, page, more) => var (h, a) := Malloc(s.h, len, page, more).value; System(h, s.live[a := len])
    case Release(obj, size) => FreeDone(s, obj, size); System(Free(s.h, obj, size).value.0, s.live - {obj})
    case Store(obj, w, v) => s.(h := s.h.(mem := s.h.mem[w := v]))
  }

  /** A user's write stays within its object, so it damages neither a free chain nor another object. */
  lemma StoreKeeps(h: Heap, g: Books, obj: nat, w: nat, v: nat)
    requires Inv(h, g) && obj in g.live && obj <= w < obj + g.live[obj]
    ensures Inv(h.(mem := h.mem[w := v]), g)
    ensures SameObjects(g.live - {obj}, h.mem, h.mem[w := v])
  {
    hide Kept, Busy, ChainsRight, PageRight, ObjectRight;
    var h' := h.(mem := h.mem[w := v]);
    InvKept(h, g);
    CoveredOf(h, g);
    forall p | p in h.desc ensures PageRight(h', g, p) { StorePage(h, g, obj, w, v, p); }
    forall a | a in g.live ensures ObjectRight(h', g, a) { LiveHome(h, g, a); SameObject(h, h', g, a); }
    SameChains(h, h');
    InvFrom(h', g);
    forall a, x: nat | a in g.live - {obj} && a <= x < a + g.live[a] ensures Word(h'.mem, x) == Word(h.mem, x) {
      if a < obj { Disjoint(h, g, a, obj); } else { Disjoint(h, g, obj, a); }
    }
  }

  lemma SameObject(h: Heap, h': Heap, g: Books, a: nat)
    requires a in g.live && ObjectRight(h, g, a) && h'.desc == h.desc
    ensures ObjectRight(h', g, a)
  {
  }

  lemma SameChains(h: Heap, h': Heap)
    requires ChainsRight(h) && h'.chains == h.chains && h'.desc == h.desc && Busy(h, 0)
    ensures ChainsRight(h') && Busy(h', 0)
  {
  }

  lemma StorePage(h: Heap, g: Books, obj: nat, w: nat, v: nat, p: nat)
    requires Kept(h, g) && obj in g.live && obj <= w < obj + g.live[obj] && p in h.desc
    ensures PageRight(h.(mem := h.mem[w := v]), g, p)
  {
    hide Kept, PageRight, FreeChain;
    var h' := h.(mem := h.mem[w := v]);
    PageParts(h, g, p);
    var (i, c) := (h.desc[p].bucket, g.frees[p]);
    ChainCells(h.mem, p, i, c);
    forall t | 0 <= t < |c| ensures Word(h'.mem, Addr(p, i, c[t])) == Word(h.mem, Addr(p, i, c[t])) {
      FreeNotLive(h, g, p, t);
      NotInside(h, g, obj, w, p, c[t]);
    }
    ChainFrame(h.mem, h'.mem, p, i, c);
    PageIs(h', g, p, i, c);
  }

  /** A free cell does not start inside an object. */
  lemma NotInside(h: Heap, g: Books, obj: nat, w: nat, p: nat, k: nat)
    requires Kept(h, g) && obj in g.live && obj <= w < obj + g.live[obj] && p in h.desc
    requires h.desc[p].bucket < NR_BUCKETS && k < Cells(h.desc[p].bucket) && Addr(p, h.desc[p].bucket, k) !in g.live
    ensures w != Addr(p, h.desc[p].bucket, k)
  {
    hide Kept, Addr, Cells, Size;
    LiveHome(h, g, obj);
    PageRightOf(h, g, p);
    var (q, l) := g.home[obj];
    PageRightOf(h, g, q);
    CellsApart(p, h.desc[p].bucket, k, q, h.desc[q].bucket, l, w);
  }

  /** A cell does not start inside another one. */
  lemma CellsApart(p: nat, i: nat, k: nat, q: nat, j: nat, l: nat, w: nat)
    requires i < NR_BUCKETS && k < Cells(i) && p % PAGE_SIZE == 0
    requires j < NR_BUCKETS && l < Cells(j) && q % PAGE_SIZE == 0
    requires p == q ==> i == j && k != l
    requires Addr(q, j, l) <= w < Addr(q, j, l) + Size(j)
    ensures w != Addr(p, i, k)
  {
    hide Addr, Cells, Size;
    CellFits(p, i, k);
    CellFits(q, j, l);
    if p < q { PagesApart(p, q); } else if q < p { PagesApart(q, p); }
  }

  lemma PagesApart(p: nat, q: nat)
    requires p < q && p % PAGE_SIZE == 0 && q % PAGE_SIZE == 0
    ensures p + PAGE_SIZE <= q
  {
    assert p == p / PAGE_SIZE * PAGE_SIZE && q == q / PAGE_SIZE * PAGE_SIZE;
  }

  lemma StepKeeps(s: System, e: Event, obj: nat, w: nat)
    requires Good(s) && Enabled(s, e)
    ensures Good(Apply(s, e))
    ensures obj in s.live && obj <= w < obj + s.live[obj] && !(e.Release? && e.obj == obj) ==>
              obj in Apply(s, e).live && Apply(s, e).live[obj] == s.live[obj] &&
              Word(Apply(s, e).h.mem, w) == if e.Store? && e.w == w then e.v else Word(s.h.mem, w)
  {
    hide Inv, Malloc, Free, Covered;
    GoodCovered(s);
    var g :| Inv(s.h, g) && g.live == s.live;
    match e
    case Alloc(len, page, more) => var g' := MallocKeeps(s.h, g, len, page, more);
    case Release(o, size) =>
      var g' := FreeKeeps(s.h, g, o, size);
      assert obj in s.live && obj != o ==> obj in g'.live && g'.live[obj] == s.live[obj];
    case Store(o, x, v) =>
      StoreKeeps(s.h, g, o, x, v);
      assert Inv(Apply(s, e).h, g) && g.live == Apply(s, e).live;
  }

  lemma StepGood(s: System, e: Event)
    requires Good(s) && Enabled(s, e)
    ensures Good(Apply(s, e))
  {
    StepKeeps(s, e, 0, 0);
  }

  /** Nothing is assumed of free_s: that it ends without a panic is part of what is proved. */
  ghost predicate Possible(s: System, es: seq<Event>)
    requires Good(s)
    decreases |es|
  {
    es == [] || (Enabled(s, es[0]) && (StepGood(s, es[0]); Possible(Apply(s, es[0]), es[1..])))
  }

  ghost function Final(s: System, es: seq<Event>): (r: System)
    requires Good(s) && Possible(s, es)
    ensures Good(r)
    decreases |es|
  {
    if es == [] then s
    else
      StepGood(s, es[0]);
      Final(Apply(s, es[0]), es[1..])
  }

  /** What was last stored in word w. */
  function LastStored(es: seq<Event>, w: nat, now: nat): nat
    decreases |es|
  {
    if es == [] then now else LastStored(es[1..], w, if es[0].Store? && es[0].w == w then es[0].v else now)
  }

  /** Over every run an object that is not freed keeps its place, its length, and every word its user last stored
      there. */
  lemma {:induction false} RunKeeps(s: System, es: seq<Event>, obj: nat, w: nat)
    requires Good(s) && Possible(s, es)
    ensures obj in s.live && obj <= w < obj + s.live[obj] &&
              (forall k :: 0 <= k < |es| ==> !(es[k].Release? && es[k].obj == obj)) ==>
              obj in Final(s, es).live && Final(s, es).live[obj] == s.live[obj] &&
              Word(Final(s, es).h.mem, w) == LastStored(es, w, Word(s.h.mem, w))
    decreases |es|
  {
    hide Good, Apply, Enabled, Word;
    if es != [] {
      StepKeeps(s, es[0], obj, w);
      var s1 := Apply(s, es[0]);
      RunKeeps(s1, es[1..], obj, w);
      if forall k :: 0 <= k < |es| ==> !(es[k].Release? && es[k].obj == obj) {
        assert !(es[0].Release? && es[0].obj == obj);
        forall k | 0 <= k < |es[1..]| ensures !(es[1..][k].Release? && es[1..][k].obj == obj) {
          assert es[1..][k] == es[k + 1];
        }
      }
    }
  }

  /** In every reachable state live objects are long enough, within a page, and apart. */
  lemma ObjectsApart(s: System, a: nat, b: nat)
    requires Good(s) && a in s.live && b in s.live && a < b
    ensures a + s.live[a] <= b && a / PAGE_SIZE * PAGE_SIZE + PAGE_SIZE >= a + s.live[a]
  {
    hide Inv;
    var g :| Inv(s.h, g) && g.live == s.live;
    InvKept(s.h, g);
    Disjoint(s.h, g, a, b);
    WithinPage(s.h, g, a);
  }

  /** Before the first call. */
  lemma StartGood(mem: map<nat, nat>)
    ensures Good(System(Heap(seq(NR_BUCKETS, _ => []), map[], mem, 0), map[]))
  {
    var h := Heap(seq(NR_BUCKETS, _ => []), map[], mem, 0);
    assert Inv(h, Books(map[], map[], map[]));
  }
}

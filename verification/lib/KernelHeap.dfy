/** malloc and free_s as they run, over memory and the bucket chains updated in place. */
module KernelHeap {
  import opened Buckets
  import BucketLemmas
  import opened Basics

  class KernelHeap {
    var chains: seq<seq<nat>>
    var desc: map<nat, Desc>
    var mem: map<nat, nat>
    var spare: nat

    function Abs(): Heap
      reads this
    {
      Heap(chains, desc, mem, spare)
    }

    /** The chain of free objects of a new page. */
    method LinkPage(page: nat, i: nat)
      requires i < NR_BUCKETS
      modifies `mem
      ensures mem == LinkCells(old(mem), page, i, 0)
    {
      ghost var mem0 := mem;
      var cp := page;
      var n := PAGE_SIZE / Size(i);
      ghost var k := 0;
      BucketLemmas.Multiple(0, Cells(i), Size(i));
      CellsIs(i);
      while n > 1
        modifies `mem
        invariant n >= 1 && k + n == Cells(i) && cp == Addr(page, i, k)
        invariant LinkCells(mem, page, i, k) == LinkCells(mem0, page, i, 0)
      {
        NextCell(page, i, k);
        mem := mem[cp := cp + Size(i)];
        cp := cp + Size(i);
        n := n - 1;
        k := k + 1;
      }
      mem := mem[cp := 0];
    }

    /** malloc; None stands for its panics. */
    method Malloc(len: nat, page: nat, more: bool) returns (r: Outcome<nat>)
      requires Covered(Abs()) && 0 !in desc
      modifies this
      ensures match Buckets.Malloc(old(Abs()), len, page, more)
        case Panic => r.Panic?
        case Done((h, a)) => r == Done(a) && Abs() == h
    {
      hide LinkCells;
      var i := 0;
      while i < NR_BUCKETS
        modifies {}
        invariant i <= NR_BUCKETS && BucketFor(len, 0) == BucketFor(len, i)
      {
        if Size(i) >= len { break; }
        i := i + 1;
      }
      if i == NR_BUCKETS { return Panic; }
      var j := 0;
      ghost var c := chains[i];
      assert c[0..] == c;
      while j < |chains[i]|
        modifies {}
        invariant j <= |c| && Roomy(desc, c) == Roomy(desc, c[j..])
      {
        assert c[j..][0] == c[j] && c[j..][1..] == c[j + 1..];
        if desc[chains[i][j]].freeptr != 0 { break; }
        j := j + 1;
      }
      var p;
      ZeroIsNone(c, desc, j);
      if j < |chains[i]| {
        p := chains[i][j];
      } else {
        if spare == 0 {
          if !more { return Panic; }
          spare := DESCS_PER_PAGE;
        }
        spare := spare - 1;
        if page == 0 { return Panic; }
        LinkPage(page, i);
        desc := desc[page := Desc(i, page, 0)];
        chains := chains[i := [page] + chains[i]];
        p := page;
      }
      var a := desc[p].freeptr;
      desc := desc[p := desc[p].(freeptr := Word(mem, a), refcnt := desc[p].refcnt + 1)];
      r := Done(a);
    }

    /** The place of a page on a chain, or the length of the chain. */
    method FindPage(i: nat, page: nat) returns (j: nat)
      requires i < |chains|
      ensures j <= |chains[i]| && (j < |chains[i]| ==> chains[i][j] == page)
      ensures (j == |chains[i]| ==> page !in chains[i])
    {
      j := 0;
      while j < |chains[i]|
        invariant j <= |chains[i]| && forall k :: 0 <= k < j ==> chains[i][k] != page
      {
        if chains[i][j] == page { break; }
        j := j + 1;
      }
    }

    /** The bucket and the place of a page; the number of buckets if there is none. */
    method FindBucket(page: nat, size: nat) returns (i: nat, j: nat)
      requires |chains| == NR_BUCKETS
      ensures i == Search(chains, page, size, 0)
      ensures i < NR_BUCKETS ==> j < |chains[i]| && chains[i][j] == page
    {
      i, j := 0, 0;
      while i < NR_BUCKETS
        invariant i <= NR_BUCKETS && Search(chains, page, size, 0) == Search(chains, page, size, i)
      {
        if Size(i) >= size {
          j := FindPage(i, page);
          if j < |chains[i]| { break; }
        }
        i := i + 1;
      }
    }

    /** free_s: the page given back, 0 for none. */
    method FreeS(obj: nat, size: nat) returns (r: Outcome<nat>)
      requires ChainsRight(Abs())
      modifies this
      ensures match Free(old(Abs()), obj, size)
        case Panic => r.Panic? && Abs() == old(Abs())
        case Done((h, page)) => r == Done(page) && Abs() == h
    {
      hide Size, Search;
      var page := obj - obj % PAGE_SIZE;
      var i, j := FindBucket(page, size);
      if i == NR_BUCKETS { return Panic; }
      BucketLemmas.BucketOf(Abs(), i, page);
      var d := desc[page];
      mem := mem[obj := d.freeptr];
      if d.refcnt != 1 {
        desc := desc[page := d.(freeptr := obj, refcnt := if d.refcnt == 0 then 0xFFFF else d.refcnt - 1)];
        return Done(0);
      }
      WithoutAt(chains[i], j);
      chains := chains[i := chains[i][..j] + chains[i][j + 1..]];
      desc := desc - {page};
      spare := spare + 1;
      r := Done(page);
    }
  }

  lemma CellsIs(i: nat)
    requires i < NR_BUCKETS
    ensures PAGE_SIZE / Size(i) == Cells(i)
  {
  }

  lemma NextCell(page: nat, i: nat, k: nat)
    requires i < NR_BUCKETS
    ensures Addr(page, i, k) + Size(i) == Addr(page, i, k + 1)
  {
    assert (k + 1) * Size(i) == k * Size(i) + Size(i);
  }

  lemma ZeroIsNone(c: seq<nat>, desc: map<nat, Desc>, j: nat)
    requires (forall k :: 0 <= k < |c| ==> c[k] in desc) && j <= |c| && (j < |c| ==> desc[c[j]].freeptr != 0)
    ensures Roomy(desc, c[j..]) == if j < |c| then c[j] else 0
  {
  }
}

/** The request array and the list threaded through it (linux-0.11/kernel/blk_drv/ll_rw_blk.c,
    blk.h). Requests are known by their place in the array; -1 is the null pointer. */
module RequestQueue {
  import opened Basics
  import opened Elevator

  /** What comes after the i-th element, or the null pointer. */
  function Succ(list: seq<nat>, i: nat): int { if i + 1 < |list| then list[i + 1] else -1 }

  ghost predicate Threaded(next: seq<int>, list: seq<nat>) {
    && (forall i :: 0 <= i < |list| ==> list[i] < |next| && next[list[i]] == Succ(list, i))
    && (forall i, j :: 0 <= i < j < |list| ==> list[i] != list[j])
  }

  function Spliced(list: seq<nat>, i: nat, k: nat): (l: seq<nat>)
    requires i < |list|
    ensures |l| == |list| + 1
  {
    list[..i + 1] + [k] + list[i + 1..]
  }

  lemma SplicedAt(list: seq<nat>, i: nat, k: nat, j: nat)
    requires i < |list| && j <= |list|
    ensures Spliced(list, i, k)[j] == if j <= i then list[j] else if j == i + 1 then k else list[j - 1]
  {
  }

  lemma SpliceAt(next: seq<int>, list: seq<nat>, i: nat, k: nat, j: nat)
    requires Threaded(next, list) && i < |list| && k < |next| && k !in list && j <= |list|
    ensures list[i] < |next| && Spliced(list, i, k)[j] < |next|
    ensures next[k := Succ(list, i)][list[i] := k][Spliced(list, i, k)[j]] == Succ(Spliced(list, i, k), j)
  {
    hide Spliced, Threaded;
    NextIs(next, list, i);
    SplicedAt(list, i, k, j);
    if j < |list| { SplicedAt(list, i, k, j + 1); }
    if j != i + 1 {
      var was := if j <= i then j else j - 1;
      NextIs(next, list, was);
      Differ(next, list, was, i, k);
    }
  }

  lemma Differ(next: seq<int>, list: seq<nat>, a: nat, b: nat, k: nat)
    requires Threaded(next, list) && a < |list| && b < |list| && k !in list
    ensures list[a] != k && (a != b ==> list[a] != list[b])
  {
  }

  lemma SplicedDistinct(list: seq<nat>, i: nat, k: nat)
    requires i < |list| && k !in list && forall a, b :: 0 <= a < b < |list| ==> list[a] != list[b]
    ensures var l := Spliced(list, i, k); forall a, b :: 0 <= a < b < |l| ==> l[a] != l[b]
  {
  }

  lemma Splice(next: seq<int>, list: seq<nat>, i: nat, k: nat)
    requires Threaded(next, list) && i < |list| && k < |next| && k !in list
    ensures list[i] < |next| && Threaded(next[k := Succ(list, i)][list[i] := k], Spliced(list, i, k))
  {
    hide Spliced;
    SplicedDistinct(list, i, k);
    forall j | 0 <= j <= |list|
      ensures Spliced(list, i, k)[j] < |next|
      ensures next[k := Succ(list, i)][list[i] := k][Spliced(list, i, k)[j]] == Succ(Spliced(list, i, k), j)
    {
      SpliceAt(next, list, i, k, j);
    }
  }

  lemma Behead(next: seq<int>, list: seq<nat>)
    requires Threaded(next, list) && list != []
    ensures Threaded(next, list[1..]) && list[0] !in list[1..]
  {
    forall j | 0 <= j < |list| - 1 ensures next[list[1..][j]] == Succ(list[1..], j) {
      assert list[1..][j] == list[j + 1];
    }
  }

  /** The requests at the places of a list, all in use. */
  ghost predicate InUse(request: seq<Request>, list: seq<nat>) {
    forall i :: 0 <= i < |list| ==> list[i] < |request| && request[list[i]].dev >= 0
  }

  ghost function Through(request: seq<Request>, list: seq<nat>): (q: seq<Request>)
    requires InUse(request, list)
    ensures |q| == |list|
  {
    seq(|list|, i requires 0 <= i < |list| => request[list[i]])
  }

  lemma ThroughSplice(request: seq<Request>, list: seq<nat>, i: nat, k: nat)
    requires InUse(request, list) && i < |list| && k < |request| && request[k].dev >= 0
    ensures var l := Spliced(list, i, k);
            InUse(request, l) && Through(request, l) == Through(request, list)[..i + 1] + [request[k]] +
                Through(request, list)[i + 1..]
  {
    var l := Spliced(list, i, k);
    forall j | 0 <= j < |l| ensures l[j] == (if j <= i then list[j] else if j == i + 1 then k else list[j - 1]) {}
  }

  /** A change of a request that is not on the list. */
  lemma ThroughSame(request: seq<Request>, list: seq<nat>, k: nat, r: Request)
    requires InUse(request, list) && k < |request| && k !in list
    ensures InUse(request[k := r], list) && Through(request[k := r], list) == Through(request, list)
  {
    forall j | 0 <= j < |list| ensures list[j] != k {}
  }

  lemma ThroughRest(request: seq<Request>, list: seq<nat>)
    requires InUse(request, list) && list != []
    ensures InUse(request, list[1..]) && Through(request, list[1..]) == Through(request, list)[1..]
  {
  }

  class RequestQueue {
    const request: array<Request>
    const next: array<int>
    var current: int
    ghost var list: seq<nat>

    /** The linked list from the current request is `list`, without repetition, and all on it are in use. */
    ghost predicate Valid()
      reads this, request, next
    {
      && request.Length == next.Length == NR_REQUEST
      && current == (if list == [] then -1 else list[0])
      && Threaded(next[..], list)
      && InUse(request[..], list)
    }

    ghost function Requests(): (q: seq<Request>)
      requires Valid()
      reads this, request, next
    {
      Through(request[..], list)
    }

    /** blk_dev_init */
    constructor ()
      ensures Valid() && list == [] && forall k :: 0 <= k < NR_REQUEST ==> request[k].dev < 0
    {
      request := new Request[NR_REQUEST](_ => Request(READ, -1, 0));
      next := new int[NR_REQUEST](_ => -1);
      current := -1;
      list := [];
    }

    /** add_request */
    method AddRequest(k: nat)
      requires Valid() && k < NR_REQUEST && k !in list && request[k].dev >= 0
      modifies this, next
      ensures Valid() && Requests() == Add(old(Requests()), request[k])
    {
      hide Threaded, InUse, Through;
      ghost var (l, q) := (list, Requests());
      ThreadOff(next[..], list, k, -1);
      next[k] := -1;
      assert next[..] == old(next[..])[k := -1];
      if current == -1 {
        current := k;
        list := [k];
        Alone(request[..], next[..], k);
        return;
      }
      ghost var next1 := next[..];
      var tmp := current;
      ghost var i := 0;
      NextIs(next[..], list, 0);
      while next[tmp] != -1
        modifies {}
        invariant 0 <= i < |list| && tmp == list[i] && tmp < NR_REQUEST && next[tmp] == Succ(list, i)
        invariant Place(q, request[k], 0) == Place(q, request[k], i)
        decreases |list| - i
      {
        NextIs(next[..], list, i + 1);
        ThroughAt(request[..], list, i);
        ThroughAt(request[..], list, i + 1);
        if Between(request[tmp], request[k], request[next[tmp]]) { break; }
        tmp := next[tmp];
        i := i + 1;
      }
      assert Place(q, request[k], i) == i + 1;
      assert next[..] == next1;
      Splice(next1, list, i, k);
      ThroughSplice(request[..], list, i, k);
      next[k] := next[tmp];
      next[tmp] := k;
      assert next[..] == next1[k := Succ(list, i)][list[i] := k];
      list := Spliced(list, i, k);
    }

    /** The end of end_request: the head leaves the list. */
    method EndRequest()
      requires Valid() && list != []
      modifies this, request
      ensures Valid() && Requests() == old(Requests())[1..] && old(current) == old(list[0])
      ensures request[old(current)].dev == -1
      ensures list == old(list)[1..]
    {
      hide Threaded, InUse, Through;
      Behead(next[..], list);
      NextIs(next[..], list, 0);
      ThroughRest(request[..], list);
      ThroughSame(request[..], list[1..], current, request[current].(dev := -1));
      request[current] := request[current].(dev := -1);
      assert request[..] == old(request[..])[current := old(request[current]).(dev := -1)];
      current := next[current];
      list := list[1..];
    }

    /** make_request: a free slot is looked for from the top, and writes leave the last third to reads. */
    method MakeRequest(cmd: nat, dev: nat, sector: nat) returns (k: int)
      requires Valid() && cmd <= WRITE
      modifies this, request, next
      ensures Valid() && -1 <= k < NR_REQUEST
      ensures var top := if cmd == READ then NR_REQUEST else NR_REQUEST * 2 / 3;
              if k == -1 then Requests() == old(Requests()) && forall i :: 0 <= i < top ==> old(request[i].dev) >= 0
              else k < top && old(request[k].dev) < 0 && Requests() == Add(old(Requests()), Request(cmd, dev, sector))
    {
      hide Threaded, InUse, Through;
      var top := if cmd == READ then NR_REQUEST else NR_REQUEST * 2 / 3;
      k := top - 1;
      while k >= 0
        modifies {}
        invariant -1 <= k < top
        invariant forall i :: k < i < top ==> request[i].dev >= 0
      {
        if request[k].dev < 0 { break; }
        k := k - 1;
      }
      if k < 0 { return; }
      NotListed(request[..], list, k);
      ThroughSame(request[..], list, k, Request(cmd, dev, sector));
      request[k] := Request(cmd, dev, sector);
      assert request[..] == old(request[..])[k := Request(cmd, dev, sector)];
      AddRequest(k);
    }
  }

  lemma ThreadOff(next: seq<int>, list: seq<nat>, k: nat, v: int)
    requires Threaded(next, list) && k < |next| && k !in list
    ensures Threaded(next[k := v], list)
  {
    forall j | 0 <= j < |list| ensures list[j] != k {}
  }

  lemma NextIs(next: seq<int>, list: seq<nat>, i: nat)
    requires Threaded(next, list) && i < |list|
    ensures list[i] < |next| && next[list[i]] == Succ(list, i)
  {
  }

  lemma ThroughAt(request: seq<Request>, list: seq<nat>, i: nat)
    requires InUse(request, list) && i < |list|
    ensures list[i] < |request| && Through(request, list)[i] == request[list[i]]
  {
  }

  lemma Alone(request: seq<Request>, next: seq<int>, k: nat)
    requires k < |request| == |next| && request[k].dev >= 0 && next[k] == -1
    ensures Threaded(next, [k]) && InUse(request, [k]) && Through(request, [k]) == [request[k]]
  {
  }

  lemma NotListed(request: seq<Request>, list: seq<nat>, k: nat)
    requires InUse(request, list) && k < |request| && request[k].dev < 0
    ensures k !in list
  {
  }
}

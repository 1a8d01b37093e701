/** The two lists every buffer is on (linux-0.11/fs/buffer.c): a doubly linked
    hash chain, and the circular free list. Buffers are known by their position
    in the array at start_buffer; -1 is the null pointer. */
module BufferQueues {
  import opened BufferCache
  import opened Basics
  import CacheInvariant
  import CacheSteps

  const NR_HASH := 307

  /** _hashfn */
  function HashFn(dev: nat, block: nat): (h: nat)
    ensures h < NR_HASH
  {
    (((dev % 0x1_0000_0000) as bv32 ^ (block % 0x1_0000_0000) as bv32) as nat) % NR_HASH
  }

  // ---- Lists as sequences ----

  ghost predicate InRange(c: seq<int>, n: nat) { forall i :: 0 <= i < |c| ==> 0 <= c[i] < n }

  ghost predicate Distinct(c: seq<int>) { forall i, j :: 0 <= i < j < |c| ==> c[i] != c[j] }

  /** The doubly linked list c, with its head pointer. */
  ghost predicate Linked(next: seq<int>, prev: seq<int>, head: int, c: seq<int>) {
    |next| == |prev| && InRange(c, |next|) && Distinct(c) && head == At(c, 0) && Nexts(next, c) && Prevs(prev, c)
  }

  ghost predicate Nexts(next: seq<int>, c: seq<int>)
    requires InRange(c, |next|)
  {
    forall i :: 0 <= i < |c| ==> next[c[i]] == At(c, i + 1)
  }

  ghost predicate Prevs(prev: seq<int>, c: seq<int>)
    requires InRange(c, |prev|)
  {
    forall i :: 0 <= i < |c| ==> prev[c[i]] == At(c, i - 1)
  }

  function At(c: seq<int>, i: int): int { if 0 <= i < |c| then c[i] else -1 }

  function After(i: nat, n: nat): nat { if i + 1 < n then i + 1 else 0 }

  function Before(i: nat, n: nat): nat
    requires n > 0
  {
    if i > 0 then i - 1 else n - 1
  }

  /** The circular doubly linked list f. */
  ghost predicate Ring(next: seq<int>, prev: seq<int>, head: int, f: seq<int>) {
    |next| == |prev| && InRange(f, |next|) && Distinct(f) && f != [] && head == f[0] && Turns(next, prev, f)
  }

  ghost predicate Turns(next: seq<int>, prev: seq<int>, f: seq<int>)
    requires |next| == |prev| && InRange(f, |next|)
  {
    forall i :: 0 <= i < |f| ==> next[f[i]] == f[After(i, |f|)] && prev[f[i]] == f[Before(i, |f|)]
  }

  lemma TurnOf(next: seq<int>, prev: seq<int>, f: seq<int>, i: nat)
    requires |next| == |prev| && InRange(f, |next|) && Turns(next, prev, f) && i < |f|
    ensures 0 <= f[i] < |next| && next[f[i]] == f[After(i, |f|)] && prev[f[i]] == f[Before(i, |f|)]
    ensures 0 <= next[f[i]] < |next| && 0 <= prev[f[i]] < |next|
  {
  }

  lemma AllTurns(next: seq<int>, prev: seq<int>, f: seq<int>)
    requires |next| == |prev| && InRange(f, |next|)
    requires forall i :: 0 <= i < |f| ==> next[f[i]] == f[After(i, |f|)] && prev[f[i]] == f[Before(i, |f|)]
    ensures Turns(next, prev, f)
  {
  }

  /** c without its i-th element. */
  function Cut(c: seq<int>, i: nat): (d: seq<int>)
    requires i < |c|
    ensures |d| == |c| - 1
  {
    c[..i] + c[i + 1..]
  }

  /** Where the j-th element of Cut(c, i) was. */
  function Was(i: nat, j: nat): nat { if j < i then j else j + 1 }

  lemma CutAt(c: seq<int>, i: nat, j: nat)
    requires i < |c| && j < |c| - 1
    ensures Cut(c, i)[j] == c[Was(i, j)] && Was(i, j) < |c| && Was(i, j) != i
  {
  }

  lemma CutHas(c: seq<int>, i: nat)
    requires i < |c| && Distinct(c)
    ensures Distinct(Cut(c, i)) && forall x :: x in Cut(c, i) <==> x in c && x != c[i]
  {
    var d := Cut(c, i);
    forall x | x in c && x != c[i] ensures x in d {
      var j :| 0 <= j < |c| && c[j] == x;
      assert d[if j < i then j else j - 1] == x;
    }
  }

  function NextAfterUnlink(next: seq<int>, prev: seq<int>, b: int): (r: seq<int>)
    requires 0 <= b < |next| == |prev| && -1 <= prev[b] < |next|
    ensures |r| == |next|
  {
    if prev[b] >= 0 then next[prev[b] := next[b]] else next
  }

  function PrevAfterUnlink(next: seq<int>, prev: seq<int>, b: int): (r: seq<int>)
    requires 0 <= b < |next| == |prev| && -1 <= next[b] < |next|
    ensures |r| == |prev|
  {
    if next[b] >= 0 then prev[next[b] := prev[b]] else prev
  }

  lemma Unlink(next: seq<int>, prev: seq<int>, head: int, c: seq<int>, i: nat)
    requires Linked(next, prev, head, c) && i < |c|
    ensures -1 <= prev[c[i]] < |next| && -1 <= next[c[i]] < |next|
    ensures Linked(NextAfterUnlink(next, prev, c[i]), PrevAfterUnlink(next, prev, c[i]),
                   if head == c[i] then next[c[i]] else head, Cut(c, i))
  {
    hide Cut, Distinct, InRange, Nexts, Prevs;
    CutHas(c, i);
    UnlinkNext(next, prev, c, i);
    UnlinkPrev(next, prev, c, i);
    UnlinkHead(next, head, c, i);
  }

  lemma UnlinkHead(next: seq<int>, head: int, c: seq<int>, i: nat)
    requires InRange(c, |next|) && Distinct(c) && Nexts(next, c) && i < |c| && head == At(c, 0)
    ensures InRange(Cut(c, i), |next|)
    ensures (if head == c[i] then next[c[i]] else head) == At(Cut(c, i), 0)
  {
    if head != c[i] { assert i > 0; }
  }

  lemma CutInRange(c: seq<int>, i: nat, n: nat)
    requires InRange(c, n) && i < |c|
    ensures InRange(Cut(c, i), n)
  {
  }

  lemma UnlinkNext(next: seq<int>, prev: seq<int>, c: seq<int>, i: nat)
    requires |next| == |prev| && InRange(c, |next|) && Distinct(c) && Nexts(next, c) && Prevs(prev, c) && i < |c|
    ensures -1 <= prev[c[i]] < |next| && InRange(Cut(c, i), |next|)
    ensures Nexts(NextAfterUnlink(next, prev, c[i]), Cut(c, i))
  {
    hide Cut, Nexts, Prevs, NextAfterUnlink;
    CutInRange(c, i, |next|);
    PrevOf(prev, c, i);
    var (d, next') := (Cut(c, i), NextAfterUnlink(next, prev, c[i]));
    forall j | 0 <= j < |d| ensures next'[d[j]] == At(d, j + 1) { UnlinkNextAt(next, prev, c, i, j); }
    AllNexts(next', d);
  }

  lemma UnlinkNextAt(next: seq<int>, prev: seq<int>, c: seq<int>, i: nat, j: nat)
    requires |next| == |prev| && InRange(c, |next|) && Distinct(c) && Nexts(next, c) && Prevs(prev, c) && i < |c|
    requires j < |c| - 1
    ensures -1 <= prev[c[i]] < |next| && 0 <= Cut(c, i)[j] < |next|
    ensures NextAfterUnlink(next, prev, c[i])[Cut(c, i)[j]] == At(Cut(c, i), j + 1)
  {
    hide Cut, Nexts, Prevs;
    PrevOf(prev, c, i);
    NextOf(next, c, i);
    NextOf(next, c, Was(i, j));
    CutAt(c, i, j);
    if j + 1 < |c| - 1 { CutAt(c, i, j + 1); }
    if i > 0 && j + 1 != i { assert c[Was(i, j)] != c[i - 1]; }
  }

  lemma UnlinkPrev(next: seq<int>, prev: seq<int>, c: seq<int>, i: nat)
    requires |next| == |prev| && InRange(c, |next|) && Distinct(c) && Nexts(next, c) && Prevs(prev, c) && i < |c|
    ensures -1 <= next[c[i]] < |next| && InRange(Cut(c, i), |next|)
    ensures Prevs(PrevAfterUnlink(next, prev, c[i]), Cut(c, i))
  {
    hide Cut, Nexts, Prevs, PrevAfterUnlink;
    CutInRange(c, i, |next|);
    NextOf(next, c, i);
    var (d, prev') := (Cut(c, i), PrevAfterUnlink(next, prev, c[i]));
    forall j | 0 <= j < |d| ensures prev'[d[j]] == At(d, j - 1) { UnlinkPrevAt(next, prev, c, i, j); }
    AllPrevs(prev', d);
  }

  lemma UnlinkPrevAt(next: seq<int>, prev: seq<int>, c: seq<int>, i: nat, j: nat)
    requires |next| == |prev| && InRange(c, |next|) && Distinct(c) && Nexts(next, c) && Prevs(prev, c) && i < |c|
    requires j < |c| - 1
    ensures -1 <= next[c[i]] < |next| && 0 <= Cut(c, i)[j] < |next|
    ensures PrevAfterUnlink(next, prev, c[i])[Cut(c, i)[j]] == At(Cut(c, i), j - 1)
  {
    hide Cut, Nexts, Prevs;
    NextOf(next, c, i);
    PrevOf(prev, c, i);
    PrevOf(prev, c, Was(i, j));
    CutAt(c, i, j);
    if j > 0 { CutAt(c, i, j - 1); }
    if i + 1 < |c| && j != i { assert c[Was(i, j)] != c[i + 1]; }
  }

  lemma NextOf(next: seq<int>, c: seq<int>, i: nat)
    requires InRange(c, |next|) && Nexts(next, c) && i < |c|
    ensures 0 <= c[i] < |next| && next[c[i]] == At(c, i + 1) && -1 <= At(c, i + 1) < |next|
  {
  }

  lemma PrevOf(prev: seq<int>, c: seq<int>, i: nat)
    requires InRange(c, |prev|) && Prevs(prev, c) && i < |c|
    ensures 0 <= c[i] < |prev| && prev[c[i]] == At(c, i - 1) && -1 <= At(c, i - 1) < |prev|
  {
  }

  lemma AllNexts(next: seq<int>, c: seq<int>)
    requires InRange(c, |next|) && forall j :: 0 <= j < |c| ==> next[c[j]] == At(c, j + 1)
    ensures Nexts(next, c)
  {
  }

  lemma AllPrevs(prev: seq<int>, c: seq<int>)
    requires InRange(c, |prev|) && forall j :: 0 <= j < |c| ==> prev[c[j]] == At(c, j - 1)
    ensures Prevs(prev, c)
  {
  }

  lemma LinkFirst(next: seq<int>, prev: seq<int>, head: int, c: seq<int>, b: int)
    requires Linked(next, prev, head, c) && 0 <= b < |next| && b !in c
    ensures Linked(next[b := head], if head >= 0 then prev[b := -1][head := b] else prev[b := -1], b, [b] + c)
  {
    hide Nexts, Prevs;
    LinkFirstNext(next, c, b);
    LinkFirstPrev(prev, c, b);
  }

  lemma LinkFirstNext(next: seq<int>, c: seq<int>, b: int)
    requires InRange(c, |next|) && Nexts(next, c) && 0 <= b < |next| && b !in c
    ensures InRange([b] + c, |next|) && Nexts(next[b := At(c, 0)], [b] + c)
  {
    var d := [b] + c;
    forall j | 0 < j < |d| ensures d[j] == c[j - 1] && d[j] in c {}
  }

  lemma LinkFirstPrev(prev: seq<int>, c: seq<int>, b: int)
    requires InRange(c, |prev|) && Prevs(prev, c) && 0 <= b < |prev| && b !in c && Distinct(c)
    ensures InRange([b] + c, |prev|) && Prevs(if c == [] then prev[b := -1] else prev[b := -1][c[0] := b], [b] + c)
  {
    hide Prevs;
    var d := [b] + c;
    var prev' := if c == [] then prev[b := -1] else prev[b := -1][c[0] := b];
    forall j | 0 <= j < |d| ensures 0 <= d[j] < |prev| && prev'[d[j]] == At(d, j - 1) {
      if j > 0 { PrevOf(prev, c, j - 1); assert c[j - 1] in c; }
      if j > 1 { assert c[j - 1] != c[0]; }
    }
    AllPrevs(prev', d);
  }

  /** A list does not notice changes of pointers of buffers not on it. */
  lemma LinkedFrame(next: seq<int>, prev: seq<int>, next': seq<int>, prev': seq<int>, head: int, c: seq<int>)
    requires Linked(next, prev, head, c) && |next'| == |prev'| == |next|
    requires forall x :: x in c ==> next'[x] == next[x] && prev'[x] == prev[x]
    ensures Linked(next', prev', head, c)
  {
    forall i | 0 <= i < |c| ensures next'[c[i]] == next[c[i]] && prev'[c[i]] == prev[c[i]] { assert c[i] in c; }
  }

  lemma RingUnlink(next: seq<int>, prev: seq<int>, f: seq<int>, i: nat)
    requires |f| > 1 && Ring(next, prev, f[0], f) && i < |f|
    ensures 0 <= next[f[i]] < |next| && 0 <= prev[f[i]] < |next|
    ensures var b := f[i];
            Ring(next[prev[b] := next[b]], prev[next[b] := prev[b]], if f[0] == b then next[b] else f[0], Cut(f, i))
  {
    hide Cut, Turns;
    CutHas(f, i);
    CutInRange(f, i, |next|);
    TurnOf(next, prev, f, i);
    var (b, d) := (f[i], Cut(f, i));
    var (next', prev') := (next[prev[b] := next[b]], prev[next[b] := prev[b]]);
    forall j | 0 <= j < |d| ensures next'[d[j]] == d[After(j, |d|)] && prev'[d[j]] == d[Before(j, |d|)] {
      RingUnlinkAt(next, prev, f, i, j);
    }
    AllTurns(next', prev', d);
    CutAt(f, i, 0);
  }

  lemma RingUnlinkAt(next: seq<int>, prev: seq<int>, f: seq<int>, i: nat, j: nat)
    requires |f| > 1 && Ring(next, prev, f[0], f) && i < |f| && j < |f| - 1
    ensures 0 <= next[f[i]] < |next| && 0 <= prev[f[i]] < |next| && 0 <= Cut(f, i)[j] < |next|
    ensures next[prev[f[i]] := next[f[i]]][Cut(f, i)[j]] == Cut(f, i)[After(j, |f| - 1)]
    ensures prev[next[f[i]] := prev[f[i]]][Cut(f, i)[j]] == Cut(f, i)[Before(j, |f| - 1)]
  {
    hide Cut, Turns;
    var jj := Was(i, j);
    TurnOf(next, prev, f, i);
    CutAt(f, i, j);
    TurnOf(next, prev, f, jj);
    CutAt(f, i, After(j, |f| - 1));
    CutAt(f, i, Before(j, |f| - 1));
    if jj != Before(i, |f|) { assert f[jj] != f[Before(i, |f|)]; }
    if jj != After(i, |f|) { assert f[jj] != f[After(i, |f|)]; }
  }

  lemma RingAppend(next: seq<int>, prev: seq<int>, f: seq<int>, b: int)
    requires f != [] && Ring(next, prev, f[0], f) && 0 <= b < |next| && b !in f
    ensures var (head, last) := (f[0], f[|f| - 1]);
            prev[head] == last && Ring(next[b := head][last := b], prev[b := last][head := b], head, f + [b])
  {
    hide Turns;
    var (head, last, d) := (f[0], f[|f| - 1], f + [b]);
    TurnOf(next, prev, f, 0);
    var (next', prev') := (next[b := head][last := b], prev[b := last][head := b]);
    forall j | 0 <= j < |d| ensures next'[d[j]] == d[After(j, |d|)] && prev'[d[j]] == d[Before(j, |d|)] {
      RingAppendAt(next, prev, f, b, j);
    }
    AllTurns(next', prev', d);
  }

  lemma RingAppendAt(next: seq<int>, prev: seq<int>, f: seq<int>, b: int, j: nat)
    requires f != [] && Ring(next, prev, f[0], f) && 0 <= b < |next| && b !in f && j <= |f|
    ensures var (head, last, d) := (f[0], f[|f| - 1], f + [b]);
            && next[b := head][last := b][d[j]] == d[After(j, |d|)]
            && prev[b := last][head := b][d[j]] == d[Before(j, |d|)]
  {
    hide Turns;
    var (head, last, d) := (f[0], f[|f| - 1], f + [b]);
    assert last in f && head in f;
    if j < |f| {
      TurnOf(next, prev, f, j);
      assert f[j] in f;
      if j < |f| - 1 { assert f[j] != last; }
      if j > 0 { assert f[j] != head; }
    }
  }

  /** Removing from a list without repetitions, seen from its position. */
  lemma CutIsWithout(f: seq<nat>, i: nat)
    requires i < |f| && Distinct(f)
    ensures Without(f, f[i]) == Cut(f, i)
  {
    WithoutAt(f, i);
  }

  /** Each hash chain is a proper list. */
  ghost predicate Chained(next: seq<int>, prev: seq<int>, hash: seq<int>, chains: seq<seq<int>>) {
    |hash| == |chains| == NR_HASH && forall k :: 0 <= k < NR_HASH ==> Linked(next, prev, hash[k], chains[k])
  }

  ghost predicate Belong(bufs: seq<Buf>, c: seq<int>, k: nat, out: int) {
    forall b :: b in c ==> 0 <= b < |bufs| && b != out && bufs[b].dev != 0 && HashFn(bufs[b].dev, bufs[b].block) == k
  }

  /** Every buffer of a device but `out` is on the chain of its hash value, and nothing else is. */
  ghost predicate Exact(bufs: seq<Buf>, chains: seq<seq<int>>, out: int) {
    && |chains| == NR_HASH
    && (forall k :: 0 <= k < NR_HASH ==> Belong(bufs, chains[k], k, out))
    && (forall b :: 0 <= b < |bufs| && b != out && bufs[b].dev != 0 ==> b in chains[HashFn(bufs[b].dev, bufs[b].block)])
  }

  ghost predicate Loose(bufs: seq<Buf>, next: seq<int>, prev: seq<int>, out: int) {
    && |next| == |prev| == |bufs|
    && (forall b :: 0 <= b < |bufs| && b != out && bufs[b].dev == 0 ==> next[b] == -1 && prev[b] == -1)
  }

  ghost predicate Hashed(bufs: seq<Buf>, next: seq<int>, prev: seq<int>, hash: seq<int>, chains: seq<seq<int>>,
          out: int) {
    Chained(next, prev, hash, chains) && Exact(bufs, chains, out) && Loose(bufs, next, prev, out)
  }

  /** The neighbours of a buffer on a chain are on the same chain. */
  lemma Neighbours(next: seq<int>, prev: seq<int>, head: int, c: seq<int>, i: nat)
    requires Linked(next, prev, head, c) && i < |c|
    ensures next[c[i]] == -1 || next[c[i]] in c
    ensures prev[c[i]] == -1 || prev[c[i]] in c
    ensures c[i] in c
  {
    assert next[c[i]] == At(c, i + 1) && prev[c[i]] == At(c, i - 1);
  }

  /** Chains are disjoint. */
  lemma Apart(bufs: seq<Buf>, chains: seq<seq<int>>, out: int, k: nat, b: int)
    requires Exact(bufs, chains, out) && k < NR_HASH && b in chains[k]
    ensures 0 <= b < |bufs| && b != out && bufs[b].dev != 0 && HashFn(bufs[b].dev, bufs[b].block) == k
    ensures forall k' :: 0 <= k' < NR_HASH && k' != k ==> b !in chains[k']
  {
    hide HashFn;
    assert Belong(bufs, chains[k], k, out);
    forall k' | 0 <= k' < NR_HASH && k' != k ensures b !in chains[k'] { assert Belong(bufs, chains[k'], k', out); }
  }

  lemma RemoveChained(bufs: seq<Buf>, next: seq<int>, prev: seq<int>, hash: seq<int>, chains: seq<seq<int>>, k: nat,
          i: nat)
    requires Hashed(bufs, next, prev, hash, chains, -1) && k < NR_HASH && i < |chains[k]|
    ensures var b := chains[k][i];
            && 0 <= b < |bufs| && -1 <= prev[b] < |bufs| && -1 <= next[b] < |bufs|
            && Chained(NextAfterUnlink(next, prev, b), PrevAfterUnlink(next, prev, b),
                       if hash[k] == b then hash[k := next[b]] else hash, chains[k := Cut(chains[k], i)])
            && Loose(bufs, NextAfterUnlink(next, prev, b), PrevAfterUnlink(next, prev, b), b)
  {
    hide HashFn, Exact, Linked, Cut;
    var b := chains[k][i];
    assert Linked(next, prev, hash[k], chains[k]);
    Neighbours(next, prev, hash[k], chains[k], i);
    Apart(bufs, chains, -1, k, b);
    if next[b] >= 0 { Apart(bufs, chains, -1, k, next[b]); }
    if prev[b] >= 0 { Apart(bufs, chains, -1, k, prev[b]); }
    Unlink(next, prev, hash[k], chains[k], i);
    var (next', prev') := (NextAfterUnlink(next, prev, b), PrevAfterUnlink(next, prev, b));
    forall k' | 0 <= k' < NR_HASH && k' != k ensures Linked(next', prev', hash[k'], chains[k']) {
      InChain(next, prev, hash[k'], chains[k']);
      LinkedFrame(next, prev, next', prev', hash[k'], chains[k']);
    }
  }

  lemma InChain(next: seq<int>, prev: seq<int>, head: int, c: seq<int>)
    requires Linked(next, prev, head, c)
    ensures |next| == |prev| && (forall x :: x in c ==> 0 <= x < |next|) && (head == -1 || head in c) && Distinct(c)
  {
  }

  lemma RemoveExact(bufs: seq<Buf>, chains: seq<seq<int>>, k: nat, i: nat)
    requires Exact(bufs, chains, -1) && k < NR_HASH && i < |chains[k]| && Distinct(chains[k])
    ensures Exact(bufs, chains[k := Cut(chains[k], i)], chains[k][i])
  {
    hide HashFn, Cut;
    CutHas(chains[k], i);
    assert chains[k][i] in chains[k];
  }

  lemma InsertChained(bufs: seq<Buf>, next: seq<int>, prev: seq<int>, hash: seq<int>, chains: seq<seq<int>>, b: nat,
          k: nat)
    requires Hashed(bufs, next, prev, hash, chains, b) && b < |bufs| && k < NR_HASH
    ensures -1 <= hash[k] < |bufs|
    ensures var next' := next[b := hash[k]];
            var prev' := if hash[k] >= 0 then prev[b := -1][hash[k] := b] else prev[b := -1];
            Chained(next', prev', hash[k := b], chains[k := [b] + chains[k]]) &&
                (bufs[b].dev != 0 ==> Loose(bufs, next', prev', -1))
  {
    hide HashFn, Linked;
    assert Linked(next, prev, hash[k], chains[k]);
    InChain(next, prev, hash[k], chains[k]);
    var (next', prev') := (next[b := hash[k]], if hash[k] >= 0 then prev[b := -1][hash[k] := b] else prev[b := -1]);
    if hash[k] >= 0 { Apart(bufs, chains, b, k, hash[k]); }
    assert b !in chains[k];
    LinkFirst(next, prev, hash[k], chains[k], b);
    forall k' | 0 <= k' < NR_HASH && k' != k ensures Linked(next', prev', hash[k'], chains[k']) {
      InChain(next, prev, hash[k'], chains[k']);
      LinkedFrame(next, prev, next', prev', hash[k'], chains[k']);
    }
  }

  lemma InsertExact(bufs: seq<Buf>, chains: seq<seq<int>>, b: nat)
    requires Exact(bufs, chains, b) && b < |bufs| && bufs[b].dev != 0
    ensures var k := HashFn(bufs[b].dev, bufs[b].block); Exact(bufs, chains[k := [b] + chains[k]], -1)
  {
    hide HashFn;
  }

  /** A buffer of no device is on no chain. */
  lemma InsertUnhashed(bufs: seq<Buf>, next: seq<int>, prev: seq<int>, hash: seq<int>, chains: seq<seq<int>>, b: nat)
    requires Hashed(bufs, next, prev, hash, chains, b) && b < |bufs| && bufs[b].dev == 0
    ensures Hashed(bufs, next[b := -1], prev[b := -1], hash, chains, -1)
  {
    hide HashFn, Linked;
    forall k | 0 <= k < NR_HASH ensures Linked(next[b := -1], prev[b := -1], hash[k], chains[k]) {
      InChain(next, prev, hash[k], chains[k]);
      LinkedFrame(next, prev, next[b := -1], prev[b := -1], hash[k], chains[k]);
    }
  }

  lemma Unhashed(bufs: seq<Buf>, next: seq<int>, prev: seq<int>, hash: seq<int>, chains: seq<seq<int>>, b: nat, k: nat)
    requires Hashed(bufs, next, prev, hash, chains, -1) && b < |bufs| && bufs[b].dev == 0 && k < NR_HASH
    ensures next[b] == prev[b] == -1 && hash[k] != b && Hashed(bufs, next, prev, hash, chains, b)
  {
    hide HashFn, Linked;
    InChain(next, prev, hash[k], chains[k]);
    assert b !in chains[k];
  }

  /** Where on its chain a buffer is. */
  lemma OnChain(bufs: seq<Buf>, chains: seq<seq<int>>, b: nat) returns (i: nat)
    requires Exact(bufs, chains, -1) && b < |bufs| && bufs[b].dev != 0
    ensures var k := HashFn(bufs[b].dev, bufs[b].block); i < |chains[k]| && chains[k][i] == b
  {
    hide HashFn;
    i :| i < |chains[HashFn(bufs[b].dev, bufs[b].block)]| && chains[HashFn(bufs[b].dev, bufs[b].block)][i] == b;
  }

  // ---- The table ----

  class BufferTable {
    const heads: array<Buf>
    const next: array<int>
    const prev: array<int>
    const nextFree: array<int>
    const prevFree: array<int>
    const hash: array<int>
    var freeList: int
    ghost var chains: seq<seq<int>>
    ghost var free: seq<nat>

    ghost predicate Shape()
      reads this
    {
      && next.Length == prev.Length == heads.Length && hash.Length == NR_HASH
      && nextFree.Length == prevFree.Length == heads.Length
      && next != prev && next != nextFree && next != prevFree && prev != nextFree && prev != prevFree
      && nextFree != prevFree
      && hash != next && hash != prev && hash != nextFree && hash != prevFree
    }

    ghost predicate InHash(out: int)
      reads this, heads, next, prev, hash
    {
      Shape() && Hashed(heads[..], next[..], prev[..], hash[..], chains, out)
    }

    ghost predicate InFreeList()
      reads this, nextFree, prevFree
    {
      Shape() && Ring(nextFree[..], prevFree[..], freeList, free)
    }

    ghost predicate Valid()
      reads this, heads, next, prev, nextFree, prevFree, hash
    {
      InHash(-1) && InFreeList() && CacheInvariant.IsPermutation(free, heads.Length)
    }

    /** find_buffer: looks along one chain only, and agrees with a search of all buffers. */
    method FindBuffer(dev: nat, block: nat) returns (r: int)
      requires Valid() && dev != 0
      ensures -1 <= r < heads.Length
      ensures r >= 0 ==> Id(heads[r]) == (dev, block)
      ensures r == -1 ==> forall b :: 0 <= b < heads.Length ==> Id(heads[b]) != (dev, block)
      ensures CacheInvariant.Unique(heads[..]) ==> r == Find(heads[..], dev, block)
    {
      hide HashFn, Ring, CacheInvariant.IsPermutation, CacheInvariant.Unique, Loose;
      var k := HashFn(dev, block);
      ghost var c := chains[k];
      ghost var i := 0;
      r := hash[k];
      while r != -1
        invariant 0 <= i <= |c| && r == At(c, i)
        invariant forall j :: 0 <= j < i ==> 0 <= c[j] < heads.Length && Id(heads[c[j]]) != (dev, block)
        decreases |c| - i
      {
        Follow(next[..], prev[..], hash[..], chains, k, i);
        if heads[r].dev == dev && heads[r].block == block { break; }
        r := next[r];
        i := i + 1;
      }
      if r == -1 {
        Missed(heads[..], chains, dev, block);
      } else {
        FoundIs(heads[..], r);
      }
    }

    /** remove_from_queues, the hash queue. */
    method RemoveFromHash(b: nat)
      requires InHash(-1) && b < heads.Length
      modifies next, prev, hash, `chains
      ensures InHash(b)
    {
      hide HashFn, Chained, Exact, Loose, Cut;
      ghost var (next0, prev0, hash0) := (next[..], prev[..], hash[..]);
      var k := HashFn(heads[b].dev, heads[b].block);
      if heads[b].dev != 0 {
        ghost var i := OnChain(heads[..], chains, b);
        RemoveChained(heads[..], next0, prev0, hash0, chains, k, i);
        ChainDistinct(next0, prev0, hash0, chains, k);
        RemoveExact(heads[..], chains, k, i);
        chains := chains[k := Cut(chains[k], i)];
      } else {
        Unhashed(heads[..], next0, prev0, hash0, chains, b, k);
      }
      if next[b] != -1 { prev[next[b]] := prev[b]; }
      if prev[b] != -1 { next[prev[b]] := next[b]; }
      if hash[k] == b { hash[k] := next[b]; }
      assert hash[..] == if hash0[k] == b then hash0[k := next0[b]] else hash0;
      assert next[..] == NextAfterUnlink(next0, prev0, b);
      assert prev[..] == PrevAfterUnlink(next0, prev0, b);
    }

    /** remove_from_queues, the free list. */
    method RemoveFromFreeList(b: nat)
      requires InFreeList() && CacheInvariant.IsPermutation(free, heads.Length) && b < heads.Length && heads.Length >= 2
      modifies nextFree, prevFree, `freeList, `free
      ensures InFreeList() && free == Without(old(free), b)
    {
      hide Turns, InRange, Cut, Distinct, Without;
      ghost var (next0, prev0) := (nextFree[..], prevFree[..]);
      ghost var i := InFree(free, b, heads.Length);
      FreeDistinct(free, heads.Length);
      RingUnlink(next0, prev0, free, i);
      CutIsWithout(free, i);
      free := Cut(free, i);
      var (n, p) := (nextFree[b], prevFree[b]);
      nextFree[p] := n;
      prevFree[n] := p;
      if freeList == b { freeList := n; }
      assert nextFree[..] == next0[p := n];
      assert prevFree[..] == prev0[n := p];
    }

    /** insert_into_queues, the free list: b goes to its end. */
    method InsertIntoFreeList(b: nat)
      requires InFreeList() && b < heads.Length && b !in free
      modifies nextFree, prevFree, `free
      ensures InFreeList() && free == old(free) + [b]
    {
      hide Turns, InRange, Distinct;
      ghost var (next0, prev0) := (nextFree[..], prevFree[..]);
      RingAppend(next0, prev0, free, b);
      FirstAndLast(free, heads.Length, next0, prev0, freeList);
      nextFree[b] := freeList;
      prevFree[b] := prevFree[freeList];
      nextFree[prevFree[freeList]] := b;
      prevFree[freeList] := b;
      ghost var last := free[|free| - 1];
      assert nextFree[..] == next0[b := freeList][last := b];
      assert prevFree[..] == prev0[b := last][freeList := b];
      free := free + [b];
    }

    /** insert_into_queues, the hash queue; an empty chain has no first buffer to change. */
    method InsertIntoHash(b: nat)
      requires InHash(b) && b < heads.Length
      modifies next, prev, hash, `chains
      ensures InHash(-1)
    {
      hide HashFn, Chained, Exact, Loose;
      ghost var (next0, prev0, hash0) := (next[..], prev[..], hash[..]);
      prev[b] := -1;
      next[b] := -1;
      if heads[b].dev == 0 {
        InsertUnhashed(heads[..], next0, prev0, hash0, chains, b);
        assert next[..] == next0[b := -1] && prev[..] == prev0[b := -1];
      } else {
        var k := HashFn(heads[b].dev, heads[b].block);
        InsertChained(heads[..], next0, prev0, hash0, chains, b, k);
        InsertExact(heads[..], chains, b);
        ChainDistinct(next0, prev0, hash0, chains, k);
        chains := chains[k := [b] + chains[k]];
        next[b] := hash[k];
        hash[k] := b;
        if next[b] != -1 { prev[next[b]] := b; }
        assert next[..] == next0[b := hash0[k]];
        assert prev[..] == if hash0[k] >= 0 then prev0[b := -1][hash0[k] := b] else prev0[b := -1];
        assert hash[..] == hash0[k := b];
      }
    }

    /** The end of getblk: buffer b gets a new identity, moves to its new hash chain and to the
        end of the free list, exactly as in the abstract cache. */
    method Reuse(b: nat, dev: nat, block: nat)
      requires Valid() && b < heads.Length && heads.Length >= 2 && dev != 0
      modifies this, heads, next, prev, nextFree, prevFree, hash
      ensures Valid()
      ensures heads[..] ==
                old(heads[..])[b := old(heads[b]).(count := 1, dirt := false, uptodate := false,
                                                   dev := dev, block := block)]
      ensures free == Without(old(free), b) + [b]
    {
      hide Hashed, Ring, CacheInvariant.IsPermutation, Without, HashFn;
      heads[b] := heads[b].(count := 1, dirt := false, uptodate := false);
      SameIdentity(old(heads[..]), heads[..], next[..], prev[..], hash[..], chains, -1);
      RemoveFromHash(b);
      RemoveFromFreeList(b);
      label Removed:
      heads[b] := heads[b].(dev := dev, block := block);
      SameIdentity(old@Removed(heads[..]), heads[..], next[..], prev[..], hash[..], chains, b);
      InsertIntoFreeList(b);
      InsertIntoHash(b);
      CacheInvariantMove(old(free), b, heads.Length);
    }

    /** getblk's walk along the free list. */
    method FindVictim() returns (r: int)
      requires Valid() && heads.Length >= 1
      ensures CacheInvariant.IsPermutation(free, heads.Length)
      ensures r == Victim(heads[..], free, 0, -1)
    {
      hide Hashed, Turns, Distinct, InRange;
      r := -1;
      var tmp := freeList;
      ghost var k := 0;
      ghost var bufs := heads[..];
      assert bufs == heads[..];
      FreeDistinct(free, heads.Length);
      while true
        invariant k < |free| && tmp == free[k] && -1 <= r < heads.Length && (r >= 0 ==> bufs[r].count == 0)
        invariant Victim(bufs, free, k, r) == Victim(bufs, free, 0, -1)
        decreases |free| - k
      {
        if heads[tmp].count == 0 && (r == -1 || Badness(heads[tmp]) < Badness(heads[r])) {
          r := tmp;
          if Badness(heads[tmp]) == 0 { break; }
        }
        TurnOf(nextFree[..], prevFree[..], free, k);
        assert nextFree[..][free[k]] == nextFree[free[k]];
        tmp := nextFree[tmp];
        if k + 1 < |free| { NotFirst(free, k + 1); }
        if tmp == freeList { break; }
        k := k + 1;
      }
    }

    /** The links of buffer_init: each buffer between its neighbours in the array, around the end. */
    static method NewLinks(n: nat) returns (nx: array<int>, pv: array<int>, nf: array<int>, pf: array<int>)
      requires n >= 1
      ensures fresh(nx) && fresh(pv) && fresh(nf) && fresh(pf) && nx != pv && nx != nf && nx != pf && pv != nf
      ensures pv != pf && nf != pf
      ensures nx.Length == pv.Length == nf.Length == pf.Length == n
      ensures forall b :: 0 <= b < n ==> nx[b] == pv[b] == -1 && nf[b] == After(b, n) && pf[b] == Before(b, n)
    {
      nx, pv, nf, pf := new int[n], new int[n], new int[n], new int[n];
      for i := 0 to n
        invariant forall j :: 0 <= j < i ==> nx[j] == -1 && pv[j] == -1 && pf[j] == j - 1 && nf[j] == j + 1
      {
        nx[i] := -1;
        pv[i] := -1;
        pf[i] := i - 1;
        nf[i] := i + 1;
      }
      pf[0] := n - 1;
      nf[n - 1] := 0;
    }

    static method NewHash() returns (t: array<int>)
      ensures fresh(t) && t.Length == NR_HASH && forall k :: 0 <= k < NR_HASH ==> t[k] == -1
    {
      t := new int[NR_HASH];
      for i := 0 to NR_HASH
        invariant forall j :: 0 <= j < i ==> t[j] == -1
      {
        t[i] := -1;
      }
    }

    /** buffer_init: n buffers, linked in order; no hash chains. */
    constructor (n: nat)
      requires n >= 1
      ensures Valid() && heads.Length == n && free == seq(n, i => i)
      ensures forall b :: 0 <= b < n ==> heads[b] == Buf(0, 0, false, false, 0, false, [])
    {
      hide Hashed, Ring, CacheInvariant.IsPermutation;
      var h := new Buf[n](_ => Buf(0, 0, false, false, 0, false, []));
      var nx, pv, nf, pf := NewLinks(n);
      var t := NewHash();
      heads, next, prev, nextFree, prevFree, hash := h, nx, pv, nf, pf, t;
      freeList := 0;
      chains := seq(NR_HASH, _ => []);
      free := seq(n, i => i);
      new;
      NothingHashed(heads[..], next[..], prev[..], hash[..], chains);
      InOrder(n, nextFree[..], prevFree[..]);
    }
  }

  lemma Follow(next: seq<int>, prev: seq<int>, hash: seq<int>, chains: seq<seq<int>>, k: nat, i: nat)
    requires Chained(next, prev, hash, chains) && k < NR_HASH && i < |chains[k]|
    ensures 0 <= chains[k][i] < |next| && next[chains[k][i]] == At(chains[k], i + 1)
  {
    assert Linked(next, prev, hash[k], chains[k]);
  }

  lemma ChainDistinct(next: seq<int>, prev: seq<int>, hash: seq<int>, chains: seq<seq<int>>, k: nat)
    requires Chained(next, prev, hash, chains) && k < NR_HASH
    ensures |chains| == NR_HASH && Distinct(chains[k])
  {
  }

  /** A block not found on its own chain is in no buffer. */
  lemma Missed(bufs: seq<Buf>, chains: seq<seq<int>>, dev: nat, block: nat)
    requires Exact(bufs, chains, -1) && dev != 0
    requires var c := chains[HashFn(dev, block)]; forall j :: 0 <= j < |c| ==>
               0 <= c[j] < |bufs| && Id(bufs[c[j]]) != (dev, block)
    ensures forall b :: 0 <= b < |bufs| ==> Id(bufs[b]) != (dev, block)
  {
    forall b: nat | b < |bufs| ensures Id(bufs[b]) != (dev, block) {
      if bufs[b].dev != 0 { var i := OnChain(bufs, chains, b); }
    }
  }

  lemma FoundIs(bufs: seq<Buf>, r: nat)
    requires r < |bufs| && bufs[r].dev != 0
    ensures CacheInvariant.Unique(bufs) ==> Find(bufs, bufs[r].dev, bufs[r].block) == r
  {
    if CacheInvariant.Unique(bufs) { CacheInvariant.FindIs(bufs, r); }
  }

  /** buffer_init: empty chains, and a ring of all buffers in order. */
  lemma NothingHashed(bufs: seq<Buf>, next: seq<int>, prev: seq<int>, hash: seq<int>, chains: seq<seq<int>>)
    requires |next| == |prev| == |bufs| && |hash| == |chains| == NR_HASH
    requires forall b :: 0 <= b < |bufs| ==> bufs[b].dev == 0 && next[b] == prev[b] == -1
    requires forall k :: 0 <= k < NR_HASH ==> hash[k] == -1 && chains[k] == []
    ensures Hashed(bufs, next, prev, hash, chains, -1)
  {
    hide HashFn;
  }

  lemma InOrder(n: nat, next: seq<int>, prev: seq<int>)
    requires n >= 1 && |next| == |prev| == n
    requires forall b :: 0 <= b < n ==> next[b] == After(b, n) && prev[b] == Before(b, n)
    ensures Ring(next, prev, 0, seq(n, i => i)) && CacheInvariant.IsPermutation(seq(n, i => i), n)
  {
    var f := seq(n, i => i);
    forall b: nat | b < n ensures b in f { assert f[b] == b; }
  }

  lemma InFree(f: seq<nat>, b: nat, n: nat) returns (i: nat)
    requires CacheInvariant.IsPermutation(f, n) && b < n
    ensures i < |f| == n && f[i] == b
  {
    assert b in f;
    i :| i < |f| && f[i] == b;
  }

  lemma FreeDistinct(f: seq<nat>, n: nat)
    requires CacheInvariant.IsPermutation(f, n)
    ensures Distinct(f) && InRange(f, n) && |f| == n
  {
  }

  lemma NotFirst(f: seq<int>, i: nat)
    requires Distinct(f) && 0 < i < |f|
    ensures f[i] != f[0]
  {
  }

  lemma FirstAndLast(f: seq<nat>, n: nat, next: seq<int>, prev: seq<int>, head: int)
    requires Ring(next, prev, head, f) && |next| == n
    ensures f != [] && head == f[0] && head < n && f[|f| - 1] < n && prev[head] == f[|f| - 1]
  {
    TurnOf(next, prev, f, 0);
  }

  /** The chains look at identities only, and not at the buffer that is out. */
  lemma SameIdentity(bufs: seq<Buf>, bufs': seq<Buf>, next: seq<int>, prev: seq<int>, hash: seq<int>,
          chains: seq<seq<int>>, out: int)
    requires Hashed(bufs, next, prev, hash, chains, out) && |bufs'| == |bufs|
    requires forall b :: 0 <= b < |bufs| && b != out ==> Id(bufs'[b]) == Id(bufs[b])
    ensures Hashed(bufs', next, prev, hash, chains, out)
  {
    hide HashFn, Chained;
    forall k | 0 <= k < NR_HASH ensures Belong(bufs', chains[k], k, out) { assert Belong(bufs, chains[k], k, out); }
  }

  lemma CacheInvariantMove(f: seq<nat>, b: nat, n: nat)
    requires CacheInvariant.IsPermutation(f, n) && b < n
    ensures CacheInvariant.IsPermutation(Without(f, b) + [b], n)
  {
    CacheSteps.MoveToEnd(f, b, n);
  }
}

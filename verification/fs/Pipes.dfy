/** Pipes (linux-0.11/fs/pipe.c): bytes come out in the order in which they went in, whoever
    reads and writes in between. Module PipeCalls is about whole calls. */
module Pipes {

  import opened Basics

  const ROOM := PAGE_SIZE - 1     // a full pipe holds one byte less than a page

  /** PIPE_SIZE */
  function PipeSize(head: int, tail: int): (n: nat)
    ensures n <= ROOM
  {
    (head - tail) % PAGE_SIZE
  }

  // ---- One turn of each loop ----

  /** What one turn of read_pipe takes from a pipe with contents q, its tail at a place in the page. */
  function ReadTurn(q: seq<int>, tail: nat, count: nat): (chars: nat)
    requires tail < PAGE_SIZE
    ensures chars <= |q| && chars <= count && (q != [] && count > 0 ==> chars > 0)
  {
    Min(Min(PAGE_SIZE - tail, count), |q|)
  }

  /** What one turn of write_pipe puts in. */
  function WriteTurn(q: seq<int>, head: nat, count: nat): (chars: nat)
    requires head < PAGE_SIZE && |q| <= ROOM
    ensures chars <= ROOM - |q| && chars <= count && (|q| < ROOM && count > 0 ==> chars > 0)
  {
    Min(Min(PAGE_SIZE - head, count), ROOM - |q|)
  }

  class PipeInode {
    const page: array<int>
    var head: nat      // i_zone[0]
    var tail: nat      // i_zone[1]

    ghost predicate Valid()
      reads this
    {
      page.Length == PAGE_SIZE && head < PAGE_SIZE && tail < PAGE_SIZE
    }

    ghost function Contents(): (q: seq<int>)
      requires Valid()
      reads this, page
      ensures |q| == PipeSize(head, tail)
    {
      RingSlice(page[..], tail, PipeSize(head, tail))
    }

    constructor ()
      ensures Valid() && Contents() == [] && head == 0 && tail == 0
    {
      page := new int[PAGE_SIZE](_ => 0);
      head, tail := 0, 0;
    }

    /** One turn of read_pipe on a pipe that is not empty. */
    method Read(count: nat) returns (bytes: seq<int>)
      requires Valid() && count > 0 && PipeSize(head, tail) > 0
      modifies `tail
      ensures Valid() && |bytes| == ReadTurn(old(Contents()), old(tail), count)
      ensures old(Contents()) == bytes + Contents() && tail == (old(tail) + |bytes|) % PAGE_SIZE
    {
      var chars := PAGE_SIZE - tail;
      if chars > count { chars := count; }
      if chars > PipeSize(head, tail) { chars := PipeSize(head, tail); }
      var size := tail;
      tail := (tail + chars) % PAGE_SIZE;
      bytes := [];
      var k := 0;
      while k < chars
        modifies {}
        invariant 0 <= k <= chars && bytes == page[size..size + k]
      {
        bytes := bytes + [page[size + k]];
        k := k + 1;
      }
      Retire(head, size, chars);
      SplitRing(page[..], size, chars, PipeSize(head, tail));
      StraightRing(page[..], size, chars);
    }

    /** One turn of write_pipe on a pipe that is not full. */
    method Write(data: seq<int>) returns (chars: nat)
      requires Valid() && data != [] && PipeSize(head, tail) < ROOM
      modifies `head, page
      ensures Valid() && chars == WriteTurn(old(Contents()), old(head), |data|)
      ensures Contents() == old(Contents()) + data[..chars] && head == (old(head) + chars) % PAGE_SIZE
    {
      chars := PAGE_SIZE - head;
      if chars > |data| { chars := |data|; }
      if chars > ROOM - PipeSize(head, tail) { chars := ROOM - PipeSize(head, tail); }
      ghost var (n, page0) := (PipeSize(head, tail), page[..]);
      var size := head;
      head := (head + chars) % PAGE_SIZE;
      var k := 0;
      while k < chars
        modifies page
        invariant 0 <= k <= chars
        invariant forall x :: 0 <= x < PAGE_SIZE ==>
                    page[x] == if size <= x < size + k then data[x - size] else page0[x]
      {
        page[size + k] := data[k];
        k := k + 1;
      }
      Advance(size, tail, chars);
      PutRing(page0, page[..], size, tail, data[..chars]);
    }
  }

  lemma RingAt(page: seq<int>, tail: nat, n: nat, i: nat)
    requires |page| == PAGE_SIZE && i < n
    ensures RingSlice(page, tail, n)[i] == page[(tail + i) % PAGE_SIZE]
  {
  }

  lemma SplitRing(page: seq<int>, tail: nat, a: nat, b: nat)
    requires |page| == PAGE_SIZE && tail < PAGE_SIZE
    ensures RingSlice(page, tail, a + b) == RingSlice(page, tail, a) + RingSlice(page, (tail + a) % PAGE_SIZE, b)
  {
    hide RingSlice;
    var (q, r) := (RingSlice(page, tail, a + b), RingSlice(page, tail, a) + RingSlice(page, (tail + a) % PAGE_SIZE, b));
    forall i | 0 <= i < |q| ensures q[i] == r[i] {
      RingAt(page, tail, a + b, i);
      if i < a { RingAt(page, tail, a, i); } else {
        RingAt(page, (tail + a) % PAGE_SIZE, b, i - a);
        Around(tail, a, i - a);
      }
    }
  }

  /** Up to the end of the page there is no turning around. */
  lemma StraightRing(page: seq<int>, tail: nat, n: nat)
    requires |page| == PAGE_SIZE && tail + n <= PAGE_SIZE
    ensures RingSlice(page, tail, n) == page[tail..tail + n]
  {
  }

  lemma Around(x: nat, a: nat, i: nat)
    ensures (x + a + i) % PAGE_SIZE == ((x + a) % PAGE_SIZE + i) % PAGE_SIZE
  {
  }

  lemma Advance(head: nat, tail: nat, chars: nat)
    requires head < PAGE_SIZE && tail < PAGE_SIZE && PipeSize(head, tail) + chars <= ROOM
    ensures PipeSize((head + chars) % PAGE_SIZE, tail) == PipeSize(head, tail) + chars
  {
  }

  lemma Retire(head: nat, tail: nat, chars: nat)
    requires head < PAGE_SIZE && tail < PAGE_SIZE && chars <= PipeSize(head, tail)
    ensures PipeSize(head, (tail + chars) % PAGE_SIZE) == PipeSize(head, tail) - chars
  {
  }

  /** New bytes follow the unread ones. */
  lemma PutRing(page: seq<int>, page': seq<int>, head: nat, tail: nat, data: seq<int>)
    requires |page| == |page'| == PAGE_SIZE && head < PAGE_SIZE && tail < PAGE_SIZE
    requires PipeSize(head, tail) + |data| <= ROOM && head + |data| <= PAGE_SIZE
    requires forall x :: 0 <= x < PAGE_SIZE ==>
               page'[x] == if head <= x < head + |data| then data[x - head] else page[x]
    ensures RingSlice(page', tail, PipeSize(head, tail) + |data|) == RingSlice(page, tail, PipeSize(head, tail)) + data
  {
    hide RingSlice;
    var n := PipeSize(head, tail);
    var (q, r) := (RingSlice(page', tail, n + |data|), RingSlice(page, tail, n) + data);
    forall i | 0 <= i < |q| ensures q[i] == r[i] {
      RingAt(page', tail, n + |data|, i);
      Where(head, tail, n, i, |data|);
      if i < n { RingAt(page, tail, n, i); }
    }
  }

  /** Unread bytes are not where new ones go. */
  lemma Where(head: nat, tail: nat, n: nat, i: nat, chars: nat)
    requires head < PAGE_SIZE && tail < PAGE_SIZE && n == PipeSize(head, tail) && i < n + chars && chars <= ROOM - n
    requires chars <= PAGE_SIZE - head
    ensures var x := (tail + i) % PAGE_SIZE; if i < n then !(head <= x < head + chars) else x == head + i - n
  {
  }

  // ---- Runs: first in, first out ----

  /** A turn of some reader or some writer; data is what the writer still has to write. */
  datatype Turn = ReadSome(count: nat) | WriteSome(data: seq<int>)

  /** The contents, the positions of head and tail, and all that was ever accepted and delivered. */
  datatype Pipe = Pipe(q: seq<int>, head: nat, tail: nat, accepted: seq<int>, delivered: seq<int>)

  /** A new pipe, as the constructor leaves it. */
  const NEW_PIPE := Pipe([], 0, 0, [], [])

  ghost predicate Fits(p: Pipe) { p.head < PAGE_SIZE && p.tail < PAGE_SIZE && |p.q| <= ROOM }

  ghost predicate Enabled(p: Pipe, t: Turn) {
    match t
    case ReadSome(count) => count > 0 && p.q != []
    case WriteSome(data) => data != [] && |p.q| < ROOM
  }

  ghost function Apply(p: Pipe, t: Turn): (r: Pipe)
    requires Fits(p)
    ensures Fits(r)
  {
    match t
    case ReadSome(count) =>
      var n := ReadTurn(p.q, p.tail, count);
      p.(q := p.q[n..], tail := (p.tail + n) % PAGE_SIZE, delivered := p.delivered + p.q[..n])
    case WriteSome(data) =>
      var n := WriteTurn(p.q, p.head, |data|);
      p.(q := p.q + data[..n], head := (p.head + n) % PAGE_SIZE, accepted := p.accepted + data[..n])
  }

  /** Every turn of the run finds bytes to read, or room to write. */
  ghost predicate Possible(p: Pipe, ts: seq<Turn>)
    requires Fits(p)
    decreases |ts|
  {
    ts == [] || (Enabled(p, ts[0]) && Possible(Apply(p, ts[0]), ts[1..]))
  }

  ghost function Final(p: Pipe, ts: seq<Turn>): (r: Pipe)
    requires Fits(p) && Possible(p, ts)
    ensures Fits(r)
    decreases |ts|
  {
    if ts == [] then p else Final(Apply(p, ts[0]), ts[1..])
  }

  /** What was accepted and not yet delivered is in the pipe, and fills what lies between tail and head. */
  ghost predicate Inv(p: Pipe) {
    Fits(p) && |p.q| == PipeSize(p.head, p.tail) && p.accepted == p.delivered + p.q
  }

  /** A turn takes from the front of the pipe or adds to its end, and nothing accepted or delivered changes. It gets
      further whenever there is something to read, or room to write. */
  lemma TurnKeeps(p: Pipe, t: Turn)
    requires Inv(p)
    ensures Inv(Apply(p, t)) && p.accepted <= Apply(p, t).accepted && p.delivered <= Apply(p, t).delivered
    ensures t.ReadSome? && t.count > 0 && p.q != [] ==>
              Enabled(p, t) && |p.delivered| < |Apply(p, t).delivered| && Apply(p, t).accepted == p.accepted
    ensures t.WriteSome? && t.data != [] && |p.q| < ROOM ==>
              Enabled(p, t) && |p.accepted| < |Apply(p, t).accepted| && Apply(p, t).delivered == p.delivered
  {
    hide PipeSize, ReadTurn, WriteTurn;
    match t
    case ReadSome(count) =>
      var n := ReadTurn(p.q, p.tail, count);
      Retire(p.head, p.tail, n);
      Regroup(p.delivered, p.q, n);
    case WriteSome(data) =>
      var n := WriteTurn(p.q, p.head, |data|);
      Advance(p.head, p.tail, n);
      assert p.delivered + p.q + data[..n] == p.delivered + (p.q + data[..n]);
  }

  lemma Regroup(d: seq<int>, q: seq<int>, n: nat)
    requires n <= |q|
    ensures d + q == d + q[..n] + q[n..]
  {
  }

  lemma {:induction false} RunKeeps(p: Pipe, ts: seq<Turn>)
    requires Inv(p) && Possible(p, ts)
    ensures Inv(Final(p, ts)) && p.accepted <= Final(p, ts).accepted && p.delivered <= Final(p, ts).delivered
    decreases |ts|
  {
    hide Apply, Inv, Enabled;
    InvFits(p);
    if ts != [] {
      TurnKeeps(p, ts[0]);
      RunKeeps(Apply(p, ts[0]), ts[1..]);
    }
  }

  lemma InvFits(p: Pipe)
    requires Inv(p)
    ensures Fits(p)
  {
  }

  /** However the turns of readers and writers of a new pipe alternate, what has been delivered is a prefix
      of what has been accepted, and the difference is what is in the pipe, never more than 4095 bytes. */
  lemma FirstInFirstOut(ts: seq<Turn>)
    requires Possible(NEW_PIPE, ts)
    ensures var r := Final(NEW_PIPE, ts);
            r.accepted == r.delivered + r.q && |r.accepted| - |r.delivered| == PipeSize(r.head, r.tail) <= ROOM
  {
    RunKeeps(NEW_PIPE, ts);
  }

  /** What is once accepted or delivered stays so, in that order. */
  lemma NothingTakenBack(ts: seq<Turn>, more: seq<Turn>)
    requires Possible(NEW_PIPE, ts) && Possible(Final(NEW_PIPE, ts), more)
    ensures Final(NEW_PIPE, ts).accepted <= Final(Final(NEW_PIPE, ts), more).accepted
    ensures Final(NEW_PIPE, ts).delivered <= Final(Final(NEW_PIPE, ts), more).delivered
  {
    RunKeeps(NEW_PIPE, ts);
    RunKeeps(Final(NEW_PIPE, ts), more);
  }
}

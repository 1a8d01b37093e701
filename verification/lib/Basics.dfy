/** Definitions and facts that several modules use. */
module Basics {

  const NR_TASKS := 64        // include/linux/sched.h
  const NR_REQUEST := 32      // kernel/blk_drv/blk.h
  const PAGE_SIZE := 4096     // include/linux/mm.h

  datatype Option<T> = None | Some(value: T)

  function Min(a: nat, b: nat): nat { if a < b then a else b }

  /** n elements of a ring buffer from position tail on, around its end. */
  ghost function RingSlice(buf: seq<int>, tail: nat, n: nat): (q: seq<int>)
    requires buf != []
    ensures |q| == n
  {
    seq(n, i requires 0 <= i < n => buf[(tail + i) % |buf|])
  }

  /** s without x. */
  function Without(s: seq<nat>, x: nat): (r: seq<nat>)
    ensures forall y :: y in r <==> y in s && y != x
  {
    if s == [] then [] else if s[0] == x then Without(s[1..], x) else [s[0]] + Without(s[1..], x)
  }

  lemma {:induction false} WithoutNothing(s: seq<nat>, x: nat)
    requires x !in s
    ensures Without(s, x) == s
  {
    if s != [] { WithoutNothing(s[1..], x); }
  }

  /** In a list without repetitions it is one place that goes. */
  lemma {:induction false} WithoutAt(s: seq<nat>, i: nat)
    requires i < |s| && forall j, k :: 0 <= j < k < |s| ==> s[j] != s[k]
    ensures Without(s, s[i]) == s[..i] + s[i + 1..]
  {
    if i == 0 {
      WithoutNothing(s[1..], s[0]);
    } else {
      WithoutAt(s[1..], i - 1);
      assert s[..i] + s[i + 1..] == [s[0]] + (s[1..][..i - 1] + s[1..][i..]);
    }
  }

  lemma {:induction false} SubsetSize<T>(a: set<T>, b: set<T>)
    requires a <= b
    ensures |a| <= |b| && (|a| == |b| ==> a == b)
  {
    if a != {} {
      var x :| x in a;
      SubsetSize(a - {x}, b - {x});
    }
  }
}

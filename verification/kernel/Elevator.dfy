/** The request list of a block device (linux-0.11/kernel/blk_drv/ll_rw_blk.c,
    blk.h): two ascending runs, and no request waits for more than two passes. */
module Elevator {

  /** struct request: cmd is READ (0) or WRITE (1); dev is -1 in an unused slot. */
  datatype Request = Request(cmd: nat, dev: int, sector: nat)

  const READ := 0
  const WRITE := 1

  /** IN_ORDER */
  predicate InOrder(a: Request, b: Request) {
    a.cmd < b.cmd || (a.cmd == b.cmd && (a.dev < b.dev || (a.dev == b.dev && a.sector < b.sector)))
  }

  /** The test in add_request's loop. */
  predicate Between(a: Request, r: Request, b: Request) {
    (InOrder(a, r) || !InOrder(a, b)) && InOrder(r, b)
  }

  /** add_request, on the list from its head: where the loop starting at i stops. */
  function Place(q: seq<Request>, r: Request, i: nat): (k: nat)
    requires i < |q|
    ensures i < k <= |q|
    decreases |q| - i
  {
    if i + 1 == |q| || Between(q[i], r, q[i + 1]) then i + 1 else Place(q, r, i + 1)
  }

  function Add(q: seq<Request>, r: Request): (q': seq<Request>)
    ensures |q'| == |q| + 1
  {
    if q == [] then [r] else
    var k := Place(q, r, 0);
    q[..k] + [r] + q[k..]
  }

  // ---- Shape ----

  ghost predicate Step(q: seq<Request>, i: nat)
    requires 0 < i < |q|
  {
    InOrder(q[i - 1], q[i])
  }

  ghost predicate Ascending(q: seq<Request>, lo: nat, hi: nat) {
    hi <= |q| && forall i: nat :: lo < i < hi ==> Step(q, i)
  }

  /** The first d requests are this pass, in order; the others the next one. */
  ghost predicate TwoRuns(q: seq<Request>, d: nat) {
    && d <= |q| && Ascending(q, 0, d) && Ascending(q, d, |q|)
    && (0 < d < |q| ==> InOrder(q[d], q[d - 1]))
    && (q != [] ==> d > 0)
  }

  ghost predicate Distinct(q: seq<Request>) {
    forall i, j :: 0 <= i < j < |q| ==> q[i] != q[j]
  }

  lemma Transitive(a: Request, b: Request, c: Request)
    requires InOrder(a, b) && InOrder(b, c)
    ensures InOrder(a, c)
  {
  }

  lemma Total(a: Request, b: Request)
    ensures a == b || InOrder(a, b) || InOrder(b, a)
    ensures !(InOrder(a, b) && InOrder(b, a))
  {
  }

  /** In an ascending run every earlier request is in order with every later one. */
  lemma {:induction false} RunOrdered(q: seq<Request>, lo: nat, hi: nat, i: nat, j: nat)
    requires Ascending(q, lo, hi) && lo <= i < j < hi
    ensures InOrder(q[i], q[j])
    decreases j
  {
    if i + 1 < j {
      RunOrdered(q, lo, hi, i, j - 1);
      assert Step(q, j);
      Transitive(q[i], q[j - 1], q[j]);
    } else {
      assert Step(q, j);
    }
  }

  /** What Place stands for: every place before it was refused. */
  lemma {:induction false} PlaceIs(q: seq<Request>, r: Request, i: nat)
    requires i < |q|
    ensures forall j :: i < j < Place(q, r, i) ==> !Between(q[j - 1], r, q[j])
    ensures Place(q, r, i) < |q| ==> Between(q[Place(q, r, i) - 1], r, q[Place(q, r, i)])
    decreases |q| - i
  {
    if i + 1 < |q| && !Between(q[i], r, q[i + 1]) { PlaceIs(q, r, i + 1); }
  }

  function Inserted(q: seq<Request>, r: Request, k: nat): (q': seq<Request>)
    requires k <= |q|
    ensures |q'| == |q| + 1
  {
    q[..k] + [r] + q[k..]
  }

  lemma InsertedAt(q: seq<Request>, r: Request, k: nat, i: nat)
    requires k <= |q| && i <= |q|
    ensures Inserted(q, r, k)[i] == if i < k then q[i] else if i == k then r else q[i - 1]
  {
  }

  lemma InsertInto(q: seq<Request>, lo: nat, hi: nat, r: Request, k: nat)
    requires Ascending(q, lo, hi) && lo <= k <= hi && (k > lo ==> InOrder(q[k - 1], r)) && (k < hi ==> InOrder(r, q[k]))
    ensures Ascending(Inserted(q, r, k), lo, hi + 1)
  {
    hide Inserted, InOrder;
    forall i: nat | lo < i < hi + 1 ensures Step(Inserted(q, r, k), i) {
      InsertedAt(q, r, k, i);
      InsertedAt(q, r, k, i - 1);
      if i < k { assert Step(q, i); }
      if i > k + 1 { assert Step(q, i - 1); }
    }
  }

  lemma InsertBeside(q: seq<Request>, lo: nat, hi: nat, r: Request, k: nat)
    requires Ascending(q, lo, hi) && k <= |q|
    ensures k >= hi ==> Ascending(Inserted(q, r, k), lo, hi)
    ensures k <= lo ==> Ascending(Inserted(q, r, k), lo + 1, hi + 1)
  {
    hide Inserted, InOrder;
    if k >= hi {
      forall i: nat | lo < i < hi ensures Step(Inserted(q, r, k), i) {
        InsertedAt(q, r, k, i);
        InsertedAt(q, r, k, i - 1);
        assert Step(q, i);
      }
    }
    if k <= lo {
      forall i: nat | lo + 1 < i < hi + 1 ensures Step(Inserted(q, r, k), i) {
        InsertedAt(q, r, k, i);
        InsertedAt(q, r, k, i - 1);
        assert Step(q, i - 1);
      }
    }
  }

  /** A request refused everywhere comes after the whole second run. */
  lemma {:induction false} AfterAll(q: seq<Request>, d: nat, r: Request, j: nat)
    requires TwoRuns(q, d) && r !in q[d..] && 0 < d <= j < |q|
    requires forall i :: 0 < i < |q| ==> !Between(q[i - 1], r, q[i])
    ensures InOrder(q[j], r)
    decreases j
  {
    Total(q[j - 1], q[j]);
    Total(r, q[j]);
    assert q[j] in q[d..];
    assert j > d ==> Step(q, j);
    if j > d { AfterAll(q, d, r, j - 1); }
  }

  /** The first run after r is inserted at k. */
  function Runs(q: seq<Request>, d: nat, r: Request, k: nat): nat
    requires 0 < d <= |q|
  {
    if k < d || (k == d == |q| && InOrder(q[d - 1], r)) then d + 1 else d
  }

  lemma InsertKeepsRuns(q: seq<Request>, d: nat, r: Request, k: nat)
    requires TwoRuns(q, d) && q != [] && 0 < k <= |q|
    requires k < |q| ==> Between(q[k - 1], r, q[k])
    requires k == |q| ==> r !in q[d..] && r != q[|q| - 1]
    requires k == |q| ==> forall j :: 0 < j < |q| ==> !Between(q[j - 1], r, q[j])
    ensures TwoRuns(Inserted(q, r, k), Runs(q, d, r, k))
  {
    hide Inserted;
    InsertBeside(q, 0, d, r, k);
    InsertBeside(q, d, |q|, r, k);
    var d' := Runs(q, d, r, k);
    InsertedAt(q, r, k, d' - 1);
    if d' <= |q| { InsertedAt(q, r, k, d'); }
    if k < |q| {
      Total(q[k - 1], q[k]);
      assert k != d ==> Step(q, k);
      if k < d {
        InsertInto(q, 0, d, r, k);
      } else {
        InsertInto(q, d, |q|, r, k);
        if k == d { Transitive(r, q[d], q[d - 1]); }
      }
    } else if d == |q| {
      Total(q[d - 1], r);
      if InOrder(q[d - 1], r) { InsertInto(q, 0, d, r, k); } else { InsertInto(q, d, |q|, r, k); }
    } else {
      AfterAll(q, d, r, |q| - 1);
      InsertInto(q, d, |q|, r, k);
    }
  }

  /** Adding a request keeps every request on the list and never moves the head, and
      there are still two runs at most. */
  lemma AddKeepsRuns(q: seq<Request>, d: nat, r: Request) returns (k: nat)
    requires TwoRuns(q, d) && q != [] && r !in q
    ensures 0 < k <= |q| && Add(q, r) == Inserted(q, r, k) && Add(q, r)[0] == q[0]
    ensures multiset(Add(q, r)) == multiset(q) + multiset{r}
    ensures TwoRuns(Add(q, r), Runs(q, d, r, k))
  {
    hide TwoRuns, Runs;
    k := Place(q, r, 0);
    PlaceIs(q, r, 0);
    InsertKeepsRuns(q, d, r, k);
    assert q == q[..k] + q[k..];
  }

  /** Whether r fits into the first run. */
  ghost predicate FitsFirst(q: seq<Request>, d: nat, r: Request)
    requires d <= |q|
  {
    exists i :: 0 < i < d && InOrder(q[i - 1], r) && InOrder(r, q[i])
  }

  /** A request that is queued already makes a third run exactly if it is in the second run, or the last of all, and
      does not fit into the first. */
  lemma AddRunsExactly(q: seq<Request>, d: nat, r: Request)
    requires TwoRuns(q, d) && q != []
    ensures (exists e: nat :: TwoRuns(Add(q, r), e)) <==> (r !in q[d..] && r != q[|q| - 1]) || FitsFirst(q, d, r)
  {
    hide TwoRuns;
    RunsAtLeastOne(q, d);
    var k := Place(q, r, 0);
    PlaceIs(q, r, 0);
    if (r in q[d..] || r == q[|q| - 1]) && !FitsFirst(q, d, r) {
      forall i | 0 < i < |q| ensures !Between(q[i - 1], r, q[i]) { NoPlace(q, d, r, i); }
      LastIsLargest(q, d, r);
      assert q[|q|..] == [] && q[..|q|] == q && Add(q, r) == q + [r];
      forall e: nat ensures !TwoRuns(q + [r], e) { ThirdRun(q, d, r, e); }
    } else {
      if k == |q| && FitsFirst(q, d, r) { FitsSomewhere(q, d, r); }
      InsertKeepsRuns(q, d, r, k);
      assert TwoRuns(Add(q, r), Runs(q, d, r, k));
    }
  }

  lemma RunsAtLeastOne(q: seq<Request>, d: nat)
    requires TwoRuns(q, d) && q != []
    ensures 0 < d <= |q|
  {
  }

  lemma FitsSomewhere(q: seq<Request>, d: nat, r: Request)
    requires d <= |q| && FitsFirst(q, d, r)
    ensures exists i :: 0 < i < |q| && Between(q[i - 1], r, q[i])
  {
    var i :| 0 < i < d && InOrder(q[i - 1], r) && InOrder(r, q[i]);
    assert Between(q[i - 1], r, q[i]);
  }

  /** A request of the second run, or equal to the last, is not put before the end. */
  lemma NoPlace(q: seq<Request>, d: nat, r: Request, i: nat)
    requires 0 < i < |q| && TwoRuns(q, d) && (r in q[d..] || r == q[|q| - 1]) && !FitsFirst(q, d, r)
    ensures !Between(q[i - 1], r, q[i])
  {
    if i < d {
      assert Step(q, i);
    } else {
      var j :| d <= j < |q| && q[j] == r;
      Total(q[i - 1], q[i]);
      if i > d { assert Step(q, i); }
      if i < j { RunOrdered(q, d, |q|, i, j); }
      if j < i - 1 { RunOrdered(q, d, |q|, j, i - 1); }
      Total(r, q[i]);
      Total(q[i - 1], r);
    }
  }

  lemma LastIsLargest(q: seq<Request>, d: nat, r: Request)
    requires TwoRuns(q, d) && q != [] && (r in q[d..] || r == q[|q| - 1])
    ensures !InOrder(q[|q| - 1], r)
  {
    if r != q[|q| - 1] {
      var j :| d <= j < |q| && q[j] == r;
      RunOrdered(q, d, |q|, j, |q| - 1);
      Total(r, q[|q| - 1]);
    }
  }

  lemma ThirdRun(q: seq<Request>, d: nat, r: Request, e: nat)
    requires TwoRuns(q, d) && q != [] && !InOrder(q[|q| - 1], r) && (r in q[d..] || r == q[|q| - 1])
    ensures !TwoRuns(q + [r], e)
  {
    var q' := q + [r];
    assert !Step(q', |q|);
    if d < |q| {
      Total(q[d - 1], q[d]);
      assert q'[d - 1] == q[d - 1] && q'[d] == q[d];
      assert !Step(q', d);
    } else {
      assert r == q[|q| - 1];
    }
  }

  /** Such a list: the new request is equal to the first of the second run. */
  lemma EqualRequestsBreakRuns()
    ensures var (a, b, c) := (Request(READ, 0, 2), Request(READ, 0, 4), Request(READ, 0, 6));
            TwoRuns([b, c, a, b], 2) && forall d :: !TwoRuns(Add([b, c, a, b], a), d)
  {
    var (a, b, c) := (Request(READ, 0, 2), Request(READ, 0, 4), Request(READ, 0, 6));
    var q := [b, c, a, b];
    assert q[2..] == [a, b];
    assert !FitsFirst(q, 2, a);
    AddRunsExactly(q, 2, a);
  }

  // ---- The queue at work ----

  /** The list, and how many of its requests belong to this pass. */
  datatype Line = Line(q: seq<Request>, d: nat)

  /** Event: a request arrives; the disk is done with the first sector of the head's two;
      the head is finished. */
  datatype Event = Arrive(r: Request) | NextSector | Finish

  /** Devices are below D and sectors below S. */
  ghost predicate Known(r: Request, D: nat, S: nat) { r.cmd <= WRITE && 0 <= r.dev < D && r.sector < S }

  /** All but the head are at the first sector of a block. */
  ghost predicate Waiting(q: seq<Request>, D: nat, S: nat) {
    && (forall i :: 0 <= i < |q| ==> Known(q[i], D, S))
    && (forall i :: 0 < i < |q| ==> q[i].sector % 2 == 0)
  }

  ghost predicate Inv(l: Line, D: nat, S: nat) {
    TwoRuns(l.q, l.d) && Distinct(l.q) && Waiting(l.q, D, S) && S % 2 == 0
  }

  ghost predicate Enabled(l: Line, e: Event, D: nat, S: nat) {
    match e
    case Arrive(r) => r !in l.q && Known(r, D, S) && r.sector % 2 == 0
    case NextSector => l.q != [] && l.q[0].sector % 2 == 0
    case Finish => l.q != []
  }

  ghost function Apply(l: Line, e: Event): Line
    requires (!e.Arrive? ==> l.q != []) && (l.q != [] ==> 0 < l.d <= |l.q|)
  {
    match e
    case Arrive(r) => if l.q == [] then Line([r], 1) else Line(Add(l.q, r), Runs(l.q, l.d, r, Place(l.q, r, 0)))
    case NextSector => l.(q := l.q[0 := l.q[0].(sector := l.q[0].sector + 1)])
    case Finish => Line(l.q[1..], if l.d > 1 then l.d - 1 else |l.q| - 1)
  }

  /** Position in the key space of commands, devices and sectors. */
  function Rank(r: Request, D: nat, S: nat): int { (r.cmd * D + r.dev) * S + r.sector }

  lemma Bigger(a: int, b: int, S: nat)
    requires a < b
    ensures a * S + S <= b * S
  {
    assert b * S == a * S + S + (b - a - 1) * S;
    assert (b - a - 1) * S >= 0;
  }

  lemma RankOrder(a: Request, b: Request, D: nat, S: nat)
    requires Known(a, D, S) && Known(b, D, S) && InOrder(a, b)
    ensures Rank(a, D, S) < Rank(b, D, S)
  {
    if a.cmd < b.cmd {
      Bigger(a.cmd, b.cmd, D);
      assert a.cmd * D + a.dev < b.cmd * D + b.dev;
      Bigger(a.cmd * D + a.dev, b.cmd * D + b.dev, S);
    } else if a.dev < b.dev {
      Bigger(a.cmd * D + a.dev, b.cmd * D + b.dev, S);
    }
  }

  lemma RankBound(a: Request, D: nat, S: nat)
    requires Known(a, D, S)
    ensures 0 <= Rank(a, D, S) < 2 * D * S
  {
    assert 0 <= a.cmd * D by { assert a.cmd == 0 || a.cmd == 1; }
    assert 0 <= (a.cmd * D + a.dev) * S;
    assert a.cmd * D + a.dev < 2 * D;
    Bigger(a.cmd * D + a.dev, 2 * D, S);
  }

  /** How far the disk still has to go until it reaches the j-th request: forward to it, or
      through the rest of this pass and up to it in the next. */
  ghost function Wait(l: Line, j: nat, D: nat, S: nat): int
    requires j < |l.q|
  {
    if j < l.d then Rank(l.q[j], D, S) - Rank(l.q[0], D, S)
    else 2 * D * S - Rank(l.q[0], D, S) + Rank(l.q[j], D, S)
  }

  lemma WaitBound(l: Line, j: nat, D: nat, S: nat)
    requires Inv(l, D, S) && j < |l.q|
    ensures 0 <= Wait(l, j, D, S) < 4 * D * S
  {
    hide Rank, InOrder, Known, Distinct, TwoRuns, Ascending;
    RankBound(l.q[j], D, S);
    RankBound(l.q[0], D, S);
    if 0 < j < l.d { FirstRun(l, j, D, S); }
  }

  lemma FirstRun(l: Line, j: nat, D: nat, S: nat)
    requires Inv(l, D, S) && 0 < j < l.d
    ensures j < |l.q| && Rank(l.q[0], D, S) < Rank(l.q[j], D, S)
  {
    hide Rank, InOrder, Known, Distinct;
    RunOrdered(l.q, 0, l.d, 0, j);
    RankOrder(l.q[0], l.q[j], D, S);
  }

  lemma AddKeepsOthers(q: seq<Request>, r: Request, k: nat, D: nat, S: nat)
    requires Distinct(q) && Waiting(q, D, S) && r !in q && 0 < k <= |q| && Known(r, D, S) && r.sector % 2 == 0
    ensures Distinct(Inserted(q, r, k)) && Waiting(Inserted(q, r, k), D, S)
  {
    hide Known;
  }

  lemma ArriveKeeps(l: Line, r: Request, D: nat, S: nat) returns (k: nat)
    requires Inv(l, D, S) && Enabled(l, Arrive(r), D, S)
    ensures Inv(Apply(l, Arrive(r)), D, S)
    ensures l.q != [] ==>
              0 < k <= |l.q| && Apply(l, Arrive(r)) == Line(Inserted(l.q, r, k), Runs(l.q, l.d, r, k)) &&
                  (k < l.d ==> Runs(l.q, l.d, r, k) == l.d + 1)
  {
    hide Known, Distinct, Waiting, Inserted, InOrder;
    if l.q == [] {
      First(r, D, S);
      k := 0;
    } else {
      k := Place(l.q, r, 0);
      PlaceIs(l.q, r, 0);
      InsertKeepsRuns(l.q, l.d, r, k);
      AddKeepsOthers(l.q, r, k, D, S);
      assert Add(l.q, r) == Inserted(l.q, r, k) by { AddIs(l.q, r); }
    }
  }

  lemma First(r: Request, D: nat, S: nat)
    requires Known(r, D, S)
    ensures Distinct([r]) && Waiting([r], D, S)
  {
    hide Known;
  }

  lemma AddIs(q: seq<Request>, r: Request)
    requires q != []
    ensures Add(q, r) == Inserted(q, r, Place(q, r, 0))
  {
  }

  lemma NextSectorKeeps(l: Line, D: nat, S: nat)
    requires Inv(l, D, S) && Enabled(l, NextSector, D, S)
    ensures Inv(Apply(l, NextSector), D, S)
  {
    var (q, q') := (l.q, Apply(l, NextSector).q);
    assert Known(q[0], D, S);
    assert q[0].sector + 1 < S;
    forall i: nat | 0 < i < l.d ensures Step(q', i) {
      assert Step(q, i);
      assert i == 1 ==> q[1].sector % 2 == 0;
    }
    forall i: nat | l.d < i < |q| ensures Step(q', i) { assert Step(q, i); }
    NextSectorOthers(q, D, S);
  }

  lemma NextSectorOthers(q: seq<Request>, D: nat, S: nat)
    requires Distinct(q) && Waiting(q, D, S) && q != [] && q[0].sector % 2 == 0 && S % 2 == 0
    ensures var q' := q[0 := q[0].(sector := q[0].sector + 1)]; Distinct(q') && Waiting(q', D, S)
  {
  }

  lemma FinishKeeps(l: Line, D: nat, S: nat)
    requires Inv(l, D, S) && l.q != []
    ensures Inv(Apply(l, Finish), D, S)
  {
    hide InOrder, Known;
    var l' := Apply(l, Finish);
    forall i: nat | 0 < i < l'.d ensures Step(l'.q, i) { assert Step(l.q, i + 1); }
    forall i: nat | l'.d < i < |l'.q| ensures Step(l'.q, i) { assert Step(l.q, i + 1); }
  }

  // ---- No starvation ----

  /** Where the j-th request is after a step. */
  ghost function Follow(l: Line, e: Event, j: nat): int
    requires j < |l.q|
  {
    match e
    case Arrive(r) => if j < Place(l.q, r, 0) then j else j + 1
    case NextSector => j
    case Finish => j - 1
  }

  lemma StepKeeps(l: Line, e: Event, D: nat, S: nat)
    requires Inv(l, D, S) && Enabled(l, e, D, S)
    ensures (!e.Arrive? ==> l.q != []) && (l.q != [] ==> 0 < l.d <= |l.q|) && Inv(Apply(l, e), D, S)
  {
    hide Distinct, Waiting, Known, InOrder;
    match e
    case Arrive(r) => var k := ArriveKeeps(l, r, D, S);
    case NextSector => NextSectorKeeps(l, D, S);
    case Finish => FinishKeeps(l, D, S);
  }

  lemma RankNext(l: Line, D: nat, S: nat)
    requires Inv(l, D, S) && |l.q| > 1 && l.d > 1
    ensures Rank(l.q[0], D, S) < Rank(l.q[1], D, S)
  {
    hide Inv, Rank;
    FirstRun(l, 1, D, S);
  }

  /** No step makes a waiting request wait longer, however many others arrive, and each
      finished request brings it nearer. */
  lemma StepWait(l: Line, e: Event, j: nat, D: nat, S: nat)
    requires Inv(l, D, S) && Enabled(l, e, D, S) && 0 < j < |l.q|
    ensures Inv(Apply(l, e), D, S)
    ensures var (l', j') := (Apply(l, e), Follow(l, e, j));
            && 0 <= j' < |l'.q| && l'.q[j'] == l.q[j]
            && Wait(l', j', D, S) <= Wait(l, j, D, S) - (if e.Finish? then 1 else 0)
  {
    StepKeeps(l, e, D, S);
    hide Inv, Inserted, Known, Enabled;
    match e
    case Arrive(r) =>
      var k := ArriveWhere(l, r, D, S);
      InsertedAt(l.q, r, k, if j < k then j else j + 1);
      InsertedAt(l.q, r, k, 0);
    case NextSector =>
      SectorRank(l.q[0], D, S);
    case Finish =>
      hide Rank;
      if l.d > 1 { RankNext(l, D, S); } else { SecondRun(l, j, D, S); }
  }

  lemma ArriveWhere(l: Line, r: Request, D: nat, S: nat) returns (k: nat)
    requires Inv(l, D, S) && Enabled(l, Arrive(r), D, S) && l.q != []
    ensures 0 < k <= |l.q| && k == Place(l.q, r, 0)
    ensures Apply(l, Arrive(r)) == Line(Inserted(l.q, r, k), Runs(l.q, l.d, r, k))
    ensures 0 < l.d <= |l.q| && l.d <= Runs(l.q, l.d, r, k)
  {
    hide TwoRuns, Distinct, Waiting;
    RunsPositive(l);
    k := Place(l.q, r, 0);
    AddIs(l.q, r);
  }

  lemma RunsPositive(l: Line)
    requires TwoRuns(l.q, l.d) && l.q != []
    ensures 0 < l.d <= |l.q|
  {
  }

  lemma SectorRank(r: Request, D: nat, S: nat)
    ensures Rank(r.(sector := r.sector + 1), D, S) == Rank(r, D, S) + 1
  {
  }

  /** When the pass ends, the next one starts at the first request of the second run. */
  lemma SecondRun(l: Line, j: nat, D: nat, S: nat)
    requires Inv(l, D, S) && l.d <= 1 && 0 < j < |l.q|
    ensures Rank(l.q[0], D, S) - Rank(l.q[1], D, S) < 2 * D * S && l.d == 1
  {
    hide Rank, TwoRuns, Distinct;
    RunsPositive(l);
    RankBound(l.q[0], D, S);
    RankBound(l.q[1], D, S);
  }

  /** A possible run in which the j-th request never becomes the head. */
  ghost predicate StaysBehind(l: Line, es: seq<Event>, j: nat, D: nat, S: nat)
    requires Inv(l, D, S) && 0 < j < |l.q|
    decreases |es|
  {
    es == [] || (
      && Enabled(l, es[0], D, S)
      && (StepKeeps(l, es[0], D, S);
          StepWait(l, es[0], j, D, S);
          Follow(l, es[0], j) > 0 && StaysBehind(Apply(l, es[0]), es[1..], Follow(l, es[0], j), D, S)))
  }

  function Finished(es: seq<Event>): nat {
    if es == [] then 0 else (if es[0].Finish? then 1 else 0) + Finished(es[1..])
  }

  /** The disk finishes fewer requests than twice the key space holds before a queued request
      reaches the head, however many requests arrive meanwhile. */
  lemma {:induction false} Served(l: Line, es: seq<Event>, j: nat, D: nat, S: nat)
    requires Inv(l, D, S) && 0 < j < |l.q| && StaysBehind(l, es, j, D, S)
    ensures Finished(es) <= Wait(l, j, D, S) < 2 * (2 * D * S)
    decreases |es|
  {
    hide Inv, Wait, Follow, Apply, Enabled;
    WaitBound(l, j, D, S);
    if es != [] {
      StepKeeps(l, es[0], D, S);
      StepWait(l, es[0], j, D, S);
      Served(Apply(l, es[0]), es[1..], Follow(l, es[0], j), D, S);
    }
  }

  // ---- What goes in comes out ----

  /** What a request is for: command, device and block, of two sectors. */
  function Target(r: Request): (nat, int, nat) { (r.cmd, r.dev, r.sector / 2) }

  function Targets(q: seq<Request>): multiset<(nat, int, nat)> {
    if q == [] then multiset{} else multiset{Target(q[0])} + Targets(q[1..])
  }

  lemma {:induction false} TargetsJoin(a: seq<Request>, b: seq<Request>)
    ensures Targets(a + b) == Targets(a) + Targets(b)
  {
    if a == [] {
      assert a + b == b;
    } else {
      assert (a + b)[1..] == a[1..] + b && (a + b)[0] == a[0];
      TargetsJoin(a[1..], b);
    }
  }

  lemma OneTarget(r: Request)
    ensures Targets([r]) == multiset{Target(r)}
  {
    assert [r][1..] == [];
  }

  lemma TargetsInserted(q: seq<Request>, r: Request, k: nat)
    requires k <= |q|
    ensures Targets(Inserted(q, r, k)) == Targets(q) + multiset{Target(r)}
  {
    hide Targets, Target;
    TargetsJoin(q[..k] + [r], q[k..]);
    TargetsJoin(q[..k], [r]);
    TargetsJoin(q[..k], q[k..]);
    assert q[..k] + q[k..] == q;
    OneTarget(r);
  }

  /** An arrival adds its target; the second sector of a block is for the same; and a completion takes away that of the
      head. Each of them can happen whenever there is a request to work on, or one that is not in the list arrives. */
  lemma StepTargets(l: Line, e: Event, D: nat, S: nat)
    requires Inv(l, D, S)
    requires match e
             case Arrive(r) => r !in l.q && r.cmd <= WRITE && 0 <= r.dev < D && r.sector < S && r.sector % 2 == 0
             case NextSector => l.q != [] && l.q[0].sector % 2 == 0
             case Finish => l.q != []
    ensures Enabled(l, e, D, S) && (!e.Arrive? ==> l.q != []) && (l.q != [] ==> 0 < l.d <= |l.q|)
    ensures match e
            case Arrive(r) => Targets(Apply(l, e).q) == Targets(l.q) + multiset{Target(r)}
            case NextSector => Targets(Apply(l, e).q) == Targets(l.q)
                               && Apply(l, e).q == [l.q[0].(sector := l.q[0].sector + 1)] + l.q[1..]
            case Finish => Targets(Apply(l, e).q) + multiset{Target(l.q[0])} == Targets(l.q)
  {
    StepKeeps(l, e, D, S);
    match e
    case Arrive(r) =>
      if l.q == [] {
        OneTarget(r);
      } else {
        AddIs(l.q, r);
        TargetsInserted(l.q, r, Place(l.q, r, 0));
      }
    case NextSector => assert Apply(l, e).q[1..] == l.q[1..];
    case Finish =>
  }

  ghost predicate Possible(l: Line, es: seq<Event>, D: nat, S: nat)
    requires Inv(l, D, S)
    decreases |es|
  {
    es == [] || (Enabled(l, es[0], D, S) && (StepKeeps(l, es[0], D, S); Possible(Apply(l, es[0]), es[1..], D, S)))
  }

  ghost function Final(l: Line, es: seq<Event>, D: nat, S: nat): (r: Line)
    requires Inv(l, D, S) && Possible(l, es, D, S)
    ensures Inv(r, D, S)
    decreases |es|
  {
    if es == [] then l else (StepKeeps(l, es[0], D, S); Final(Apply(l, es[0]), es[1..], D, S))
  }

  function Asked(es: seq<Event>): multiset<(nat, int, nat)> {
    if es == [] then multiset{} else AskedBy(es[0]) + Asked(es[1..])
  }

  function AskedBy(e: Event): multiset<(nat, int, nat)> { if e.Arrive? then multiset{Target(e.r)} else multiset{} }

  function FinishedBy(l: Line, e: Event): multiset<(nat, int, nat)> {
    if e.Finish? && l.q != [] then multiset{Target(l.q[0])} else multiset{}
  }

  /** The targets of the heads that are finished. */
  ghost function Done(l: Line, es: seq<Event>, D: nat, S: nat): multiset<(nat, int, nat)>
    requires Inv(l, D, S) && Possible(l, es, D, S)
    decreases |es|
  {
    if es == [] then multiset{}
    else
      StepKeeps(l, es[0], D, S);
      FinishedBy(l, es[0]) + Done(Apply(l, es[0]), es[1..], D, S)
  }

  /** Over every run no request is lost, and none is served twice: what was in the list and what has been asked for is
      what has been finished and what is in the list still, each as often. */
  lemma {:induction false} NoneLost(l: Line, es: seq<Event>, D: nat, S: nat)
    requires Inv(l, D, S) && Possible(l, es, D, S)
    ensures Targets(l.q) + Asked(es) == Done(l, es, D, S) + Targets(Final(l, es, D, S).q)
    decreases |es|
  {
    hide Inv, Apply, Enabled, Target, Targets, FinishedBy, AskedBy;
    if es != [] {
      StepKeeps(l, es[0], D, S);
      StepDone(l, es[0], D, S);
      NoneLost(Apply(l, es[0]), es[1..], D, S);
      var l' := Apply(l, es[0]);
      Balance(Targets(l.q), AskedBy(es[0]), Asked(es[1..]), Targets(l'.q), FinishedBy(l, es[0]),
              Done(l', es[1..], D, S), Targets(Final(l', es[1..], D, S).q));
    }
  }

  lemma Balance<T(!new)>(was: multiset<T>, asked: multiset<T>, later: multiset<T>, now: multiset<T>,
                         finished: multiset<T>, done: multiset<T>, left: multiset<T>)
    requires was + asked == now + finished && now + later == done + left
    ensures was + (asked + later) == (finished + done) + left
  {
    forall x: T ensures (was + (asked + later))[x] == ((finished + done) + left)[x] {
      assert (was + asked)[x] == (now + finished)[x] && (now + later)[x] == (done + left)[x];
    }
  }

  lemma StepDone(l: Line, e: Event, D: nat, S: nat)
    requires Inv(l, D, S) && Enabled(l, e, D, S) && (!e.Arrive? ==> l.q != []) && (l.q != [] ==> 0 < l.d <= |l.q|)
    ensures Targets(l.q) + AskedBy(e) == Targets(Apply(l, e).q) + FinishedBy(l, e)
  {
    hide Inv, Target, Targets;
    CanStep(l, e, D, S);
    StepTargets(l, e, D, S);
  }

  lemma CanStep(l: Line, e: Event, D: nat, S: nat)
    requires Inv(l, D, S) && Enabled(l, e, D, S)
    ensures match e
            case Arrive(r) => r !in l.q && r.cmd <= WRITE && 0 <= r.dev < D && r.sector < S && r.sector % 2 == 0
            case NextSector => l.q != [] && l.q[0].sector % 2 == 0
            case Finish => l.q != []
  {
    hide Inv;
  }
}

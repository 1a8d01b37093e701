/** sleep_on with interrupts on (linux-0.11/kernel/sched.c:151-162), as make_request calls it for
    wait_for_request (linux-0.11/kernel/blk_drv/ll_rw_blk.c:129), a queue that end_request wakes from the disk
    interrupt. The call reads *p, links itself and falls asleep in three steps, and wake-ups may come between them;
    processes do not preempt each other in the kernel, so nothing else does. Everywhere else sleep_on is called with
    interrupts off, or for a queue that only processes wake, and is the one step of module SleepQueues. */
module SleepRaces {
  import opened SleepQueues

  /** Where in sleep_on the current process is, if it is there: past "tmp = *p", or past "*p = current". */
  datatype Place = Outside | HasRead(t: nat, queue: nat, tmp: int) | Linked(t: nat, queue: nat)

  datatype Kernel = Kernel(s: State, at: Place)

  datatype Move = Reads(t: nat, queue: nat) | Links | Dozes | Wakes(queue: nat) | Returns(t: nat)

  predicate CanMove(k: Kernel, m: Move) {
    match m
    case Reads(t, q) => k.at.Outside? && t !in k.s.frames && t !in k.s.asleep && q in k.s.head
    case Links => k.at.HasRead?
    case Dozes => k.at.Linked?
    case Wakes(q) => q in k.s.head
    case Returns(t) => k.at.Outside? && t in k.s.frames && t !in k.s.asleep
  }

  function Moved(k: Kernel, m: Move): Kernel
    requires CanMove(k, m)
  {
    var s := k.s;
    match m
    case Reads(t, q) => k.(at := HasRead(t, q, s.head[q]))
    case Links =>
      var (t, q) := (k.at.t, k.at.queue);
      Kernel(s.(head := s.head[q := t], frames := s.frames[t := Frame(q, k.at.tmp)]), Linked(t, q))
    case Dozes => Kernel(s.(asleep := s.asleep + {k.at.t}), Outside)
    case Wakes(q) => k.(s := Apply(s, Wake(q)))
    case Returns(t) => k.(s := Apply(s, Resume(t)))
  }

  /** No task is woken now that is just going to sleep, or that such a task remembers. */
  predicate Calm(k: Kernel, m: Move) {
    !(m.Wakes? && !k.at.Outside? && k.at.queue == m.queue && m.queue in k.s.head && k.s.head[m.queue] >= 0)
  }

  // ---- Runs ----

  predicate Possible(k: Kernel, ms: seq<Move>)
    decreases |ms|
  {
    ms == [] || (CanMove(k, ms[0]) && Possible(Moved(k, ms[0]), ms[1..]))
  }

  function Final(k: Kernel, ms: seq<Move>): Kernel
    requires Possible(k, ms)
    decreases |ms|
  {
    if ms == [] then k else Final(Moved(k, ms[0]), ms[1..])
  }

  predicate AllCalm(k: Kernel, ms: seq<Move>)
    requires Possible(k, ms)
    decreases |ms|
  {
    ms == [] || (Calm(k, ms[0]) && AllCalm(Moved(k, ms[0]), ms[1..]))
  }

  // ---- What should hold whenever no process is inside sleep_on ----

  ghost predicate Root(s: State, from: int) {
    (exists q :: q in s.head && s.head[q] == from) || (from in s.frames && from !in s.asleep)
  }

  /** Following the variables tmp from the head of a queue, or from a task that will run, leads to t. */
  ghost predicate Reachable(s: State, t: nat) { exists from, n: nat :: Root(s, from) && Hop(s, from, n) == t }

  ghost predicate NobodyLost(s: State) { forall t :: t in s.asleep ==> Reachable(s, t) }

  /** Whoever is to be woken next, by wake_up or by a task that runs again, sleeps on that queue. */
  ghost predicate WakesSleepers(s: State) {
    && (forall q :: q in s.head && s.head[q] >= 0 ==> SleepsOn(s, s.head[q], q))
    && (forall t :: t in s.frames && s.frames[t].tmp >= 0 ==> SleepsOn(s, s.frames[t].tmp, s.frames[t].queue))
  }

  ghost predicate Sound(s: State) { NobodyLost(s) && WakesSleepers(s) }

  ghost predicate AllSound(k: Kernel, ms: seq<Move>)
    requires Possible(k, ms)
    decreases |ms|
  {
    (k.at.Outside? ==> Sound(k.s)) && (ms == [] || AllSound(Moved(k, ms[0]), ms[1..]))
  }

  ghost predicate AllFound(k: Kernel, ms: seq<Move>)
    requires Possible(k, ms)
    decreases |ms|
  {
    (k.at.Outside? ==> NobodyLost(k.s)) && (ms == [] || AllFound(Moved(k, ms[0]), ms[1..]))
  }

  /** Nothing is woken between reading *p and writing it. */
  predicate Exchanges(k: Kernel, ms: seq<Move>)
    requires Possible(k, ms)
    decreases |ms|
  {
    ms == [] || ((k.at.HasRead? ==> ms[0].Links?) && Exchanges(Moved(k, ms[0]), ms[1..]))
  }

  lemma InvSound(s: State, g: Chains)
    requires Inv(s, g)
    ensures Sound(s)
  {
    forall t | t in s.asleep ensures Reachable(s, t) {
      var from, n := SleeperReachable(s, g, t);
      assert Root(s, from);
    }
    forall q | q in s.head && s.head[q] >= 0 ensures SleepsOn(s, s.head[q], q) { WakeKeeps(s, g, q); }
    forall t | t in s.frames && s.frames[t].tmp >= 0 ensures SleepsOn(s, s.frames[t].tmp, s.frames[t].queue) {
      TmpSleeps(s, g, t);
    }
  }

  lemma TmpSleeps(s: State, g: Chains, t: nat)
    requires Inv(s, g) && t in s.frames && s.frames[t].tmp >= 0
    ensures SleepsOn(s, s.frames[t].tmp, s.frames[t].queue)
  {
    assert HasPlace(g, t);
    var (id, d) := g.place[t];
    assert InPlace(s, g, id, d) && InPlace(s, g, id, d - 1);
    assert HasPlace(g, g.chain[id][d - 1]);
  }

  // ---- As long as it is calm ----

  /** The queues as they are before the call of sleep_on that is under way. */
  function Before(k: Kernel): State {
    match k.at
    case Linked(t, q) =>
      if t in k.s.frames then State(k.s.asleep, k.s.head[q := k.s.frames[t].tmp], k.s.frames - {t}) else k.s
    case _ => k.s
  }

  ghost predicate AtRight(k: Kernel) {
    match k.at
    case Outside => true
    case HasRead(t, q, tmp) => t !in k.s.frames && t !in k.s.asleep && q in k.s.head && k.s.head[q] == tmp
    case Linked(t, q) =>
      && t in k.s.frames && k.s.frames[t].queue == q && t !in k.s.asleep && q in k.s.head && k.s.head[q] == t
  }

  ghost predicate Good(k: Kernel, g: Chains) { AtRight(k) && Inv(Before(k), g) }

  /** What a move is in the machine whose sleep_on is one step. */
  function Whole(k: Kernel, m: Move): seq<Event> {
    match m
    case Reads(_, _) => []
    case Links => []
    case Dozes => if k.at.Linked? then [Sleep(k.at.t, k.at.queue)] else []
    case Wakes(q) => [Wake(q)]
    case Returns(t) => [Resume(t)]
  }

  function WholeRun(k: Kernel, ms: seq<Move>): seq<Event>
    requires Possible(k, ms)
    decreases |ms|
  {
    if ms == [] then [] else Whole(k, ms[0]) + WholeRun(Moved(k, ms[0]), ms[1..])
  }

  /** A calm move does nothing, or what the whole call would do. */
  lemma CalmMove(k: Kernel, m: Move)
    requires AtRight(k) && CanMove(k, m) && Calm(k, m)
    ensures AtRight(Moved(k, m))
    ensures if Whole(k, m) == [] then Before(Moved(k, m)) == Before(k)
            else Enabled(Before(k), Whole(k, m)[0]) && Before(Moved(k, m)) == Apply(Before(k), Whole(k, m)[0])
  {
    var (s, k') := (k.s, Moved(k, m));
    match m
    case Reads(t, q) =>
    case Links =>
      var (t, q) := (k.at.t, k.at.queue);
      assert s.frames[t := Frame(q, k.at.tmp)] - {t} == s.frames;
      assert s.head[q := t][q := k.at.tmp] == s.head;
    case Dozes =>
      var (t, q) := (k.at.t, k.at.queue);
      assert (s.frames - {t})[t := Frame(q, s.frames[t].tmp)] == s.frames;
      assert s.head[q := s.frames[t].tmp][q := t] == s.head;
    case Wakes(q) =>
      if k.at.Linked? {
        var (t, p) := (k.at.t, k.at.queue);
        assert s.head[q := NONE][p := s.frames[t].tmp] == s.head[p := s.frames[t].tmp][q := NONE];
      }
    case Returns(t) =>
  }

  lemma CalmKeeps(k: Kernel, g: Chains, m: Move) returns (h: Chains)
    requires Good(k, g) && CanMove(k, m) && Calm(k, m)
    ensures Good(Moved(k, m), h)
  {
    hide Inv, Before, AtRight, Moved, Apply;
    CalmMove(k, m);
    if Whole(k, m) == [] {
      h := g;
    } else {
      StepKeeps(Before(k), g, Whole(k, m)[0]);
      h := Track(Before(k), g, Whole(k, m)[0]);
    }
  }

  /** A calm run is a run of the machine of SleepQueues, so all that is said of those runs is true of it. */
  lemma {:induction false} CalmIsWhole(k: Kernel, ms: seq<Move>)
    requires AtRight(k) && Possible(k, ms) && AllCalm(k, ms)
    ensures SleepQueues.Possible(Before(k), WholeRun(k, ms))
    ensures SleepQueues.Final(Before(k), WholeRun(k, ms)) == Before(Final(k, ms))
    decreases |ms|
  {
    hide Before, AtRight, Moved, Apply, Enabled, CanMove, Calm;
    if ms != [] {
      CalmMove(k, ms[0]);
      CalmIsWhole(Moved(k, ms[0]), ms[1..]);
      var (a, b) := (Whole(k, ms[0]), WholeRun(Moved(k, ms[0]), ms[1..]));
      if a == [] { assert a + b == b; } else { assert (a + b)[1..] == b && (a + b)[0] == a[0]; }
    }
  }

  // ---- When it is not ----

  /** Nothing leads to t. */
  ghost predicate Unseen(s: State, t: nat) {
    (forall q :: q in s.head ==> s.head[q] != t) && (forall x :: x in s.frames ==> s.frames[x].tmp != t)
  }

  /** Nothing leads any more to the task that is about to fall asleep. */
  ghost predicate Cut(k: Kernel) { k.at.Linked? && k.at.t in k.s.frames && Unseen(k.s, k.at.t) }

  /** The call under way remembers a task that has been woken, or nothing leads to it any more. */
  ghost predicate Spoiled(k: Kernel) {
    match k.at
    case Outside => false
    case HasRead(t, q, tmp) => tmp >= 0 && tmp != t && tmp !in k.s.asleep
    case Linked(t, q) =>
      && t in k.s.frames
      && var tmp := k.s.frames[t].tmp;
         (tmp >= 0 && tmp != t && tmp !in k.s.asleep) || Cut(k)
  }

  lemma {:induction false} UnseenUnreachable(s: State, t: nat, from: int, n: nat)
    requires Unseen(s, t) && t in s.asleep && Root(s, from)
    ensures Hop(s, from, n) != t
  {
    if n > 0 { var x := Hop(s, from, n - 1); }
  }

  /** Once cut off, the task is lost when it sleeps. */
  lemma CutMove(k: Kernel, m: Move)
    requires Cut(k) && CanMove(k, m)
    ensures if m.Dozes? then Moved(k, m).at.Outside? && !NobodyLost(Moved(k, m).s) else Cut(Moved(k, m))
  {
    hide Hop;
    if m.Dozes? {
      var (s', t) := (Moved(k, m).s, k.at.t);
      forall from, n: nat | Root(s', from) ensures Hop(s', from, n) != t { UnseenUnreachable(s', t, from, n); }
      assert !Reachable(s', t);
    }
  }

  /** Once spoiled, the call ends in a state that is not sound. */
  lemma SpoiledMove(k: Kernel, m: Move)
    requires Spoiled(k) && CanMove(k, m)
    ensures if m.Dozes? then Moved(k, m).at.Outside? && !Sound(Moved(k, m).s) else Spoiled(Moved(k, m))
  {
    hide NobodyLost;
    if Cut(k) {
      CutMove(k, m);
    } else if m.Dozes? {
      var (s', t) := (Moved(k, m).s, k.at.t);
      assert !SleepsOn(s', s'.frames[t].tmp, s'.frames[t].queue);
    }
  }

  lemma {:induction false} CutRun(k: Kernel, ms: seq<Move>)
    requires Cut(k) && Possible(k, ms) && Final(k, ms).at.Outside?
    ensures !AllFound(k, ms)
    decreases |ms|
  {
    hide NobodyLost, Moved, CanMove, Unseen;
    if ms != [] {
      CutMove(k, ms[0]);
      if ms[0].Dozes? {
        assert !AllFound(Moved(k, ms[0]), ms[1..]);
      } else {
        CutRun(Moved(k, ms[0]), ms[1..]);
      }
    }
  }

  lemma {:induction false} SpoiledRun(k: Kernel, ms: seq<Move>)
    requires Spoiled(k) && Possible(k, ms) && Final(k, ms).at.Outside?
    ensures !AllSound(k, ms)
    decreases |ms|
  {
    hide Sound, Moved, CanMove;
    if ms == [] {
      SpoiledInside(k);
    } else {
      SpoiledMove(k, ms[0]);
      if ms[0].Dozes? {
        var k1 := Moved(k, ms[0]);
        assert !AllSound(k1, ms[1..]);
      } else {
        SpoiledRun(Moved(k, ms[0]), ms[1..]);
      }
    }
  }

  lemma SpoiledInside(k: Kernel)
    requires Spoiled(k)
    ensures !k.at.Outside?
  {
  }

  /** A wake-up of the queue in the middle of the call spoils it. */
  lemma WakeSpoils(k: Kernel, g: Chains, m: Move)
    requires Good(k, g) && CanMove(k, m) && !Calm(k, m)
    ensures Spoiled(Moved(k, m)) && (k.at.Linked? ==> Cut(Moved(k, m)))
  {
    var (s, q, t) := (Before(k), m.queue, k.at.t);
    InvSound(s, g);
    hide Inv;
    if k.at.Linked? {
      var k' := Moved(k, m);
      forall p | p in k'.s.head ensures k'.s.head[p] != t {
        if p != q {
          assert k'.s.head[p] == s.head[p];
          if s.head[p] >= 0 { assert SleepsOn(s, s.head[p], p); }
        }
      }
      forall x | x in k'.s.frames ensures k'.s.frames[x].tmp != t {
        if x == t {
          assert k'.s.frames[x].tmp == s.head[q];
        } else if s.frames[x].tmp >= 0 {
          assert SleepsOn(s, s.frames[x].tmp, s.frames[x].queue);
        }
      }
      assert Unseen(k'.s, t);
    } else {
      assert SleepsOn(s, s.head[q], q);
    }
  }

  lemma GoodSound(k: Kernel, g: Chains)
    requires Good(k, g) && k.at.Outside?
    ensures Sound(k.s)
  {
    InvSound(k.s, g);
  }

  lemma {:induction false} SoundIffCalmFrom(k: Kernel, g: Chains, ms: seq<Move>)
    requires Good(k, g) && Possible(k, ms) && Final(k, ms).at.Outside?
    ensures AllSound(k, ms) <==> AllCalm(k, ms)
    decreases |ms|
  {
    hide Sound, Moved, CanMove, Good, Calm;
    if k.at.Outside? { GoodSound(k, g); }
    if ms != [] {
      if Calm(k, ms[0]) {
        var h := CalmKeeps(k, g, ms[0]);
        SoundIffCalmFrom(Moved(k, ms[0]), h, ms[1..]);
      } else {
        WakeSpoils(k, g, ms[0]);
        SpoiledRun(Moved(k, ms[0]), ms[1..]);
      }
    }
  }

  /** Over every run from empty queues: nobody is ever lost, and wake-ups are only ever meant for sleepers, if and only
      if no wake_up of a queue that is not empty comes while a call of sleep_on for this queue is under way. */
  lemma SoundIffCalm(queues: set<nat>, ms: seq<Move>)
    requires Possible(Kernel(Start(queues), Outside), ms) && Final(Kernel(Start(queues), Outside), ms).at.Outside?
    ensures AllSound(Kernel(Start(queues), Outside), ms) <==> AllCalm(Kernel(Start(queues), Outside), ms)
  {
    var g := StartInv(queues);
    SoundIffCalmFrom(Kernel(Start(queues), Outside), g, ms);
  }

  lemma {:induction false} FoundIffCalmFrom(k: Kernel, g: Chains, ms: seq<Move>)
    requires Good(k, g) && Possible(k, ms) && Exchanges(k, ms) && Final(k, ms).at.Outside?
    ensures AllFound(k, ms) <==> AllCalm(k, ms)
    decreases |ms|
  {
    hide NobodyLost, WakesSleepers, Moved, CanMove, Good;
    if k.at.Outside? { GoodSound(k, g); }
    if ms != [] {
      if Calm(k, ms[0]) {
        var h := CalmKeeps(k, g, ms[0]);
        FoundIffCalmFrom(Moved(k, ms[0]), h, ms[1..]);
      } else {
        WakeSpoils(k, g, ms[0]);
        CutRun(Moved(k, ms[0]), ms[1..]);
      }
    }
  }

  /** If *p is read and written at one go, every sleeper can always be reached if and only if no wake_up of the queue
      comes between the link and the sleep of a call. */
  lemma FoundIffCalm(queues: set<nat>, ms: seq<Move>)
    requires Possible(Kernel(Start(queues), Outside), ms) && Exchanges(Kernel(Start(queues), Outside), ms)
    requires Final(Kernel(Start(queues), Outside), ms).at.Outside?
    ensures AllFound(Kernel(Start(queues), Outside), ms) <==> AllCalm(Kernel(Start(queues), Outside), ms)
  {
    var g := StartInv(queues);
    FoundIffCalmFrom(Kernel(Start(queues), Outside), g, ms);
  }

  // ---- The lost stay lost ----

  /** All of them are asleep, and nothing but one of them leads to one of them. */
  ghost predicate Stranded(k: Kernel, lost: set<nat>) {
    && (forall t :: t in lost ==> t in k.s.asleep)
    && (forall q :: q in k.s.head ==> k.s.head[q] !in lost)
    && (forall x :: x in k.s.frames && x !in lost ==> k.s.frames[x].tmp !in lost)
    && (k.at.HasRead? ==> k.at.tmp !in lost && k.at.t !in lost)
    && (k.at.Linked? ==> k.at.t !in lost)
  }

  lemma {:induction false} LostForever(k: Kernel, lost: set<nat>, ms: seq<Move>)
    requires Stranded(k, lost) && Possible(k, ms)
    ensures Stranded(Final(k, ms), lost)
    decreases |ms|
  {
    hide Stranded, Moved, CanMove;
    if ms != [] {
      StrandedMove(k, lost, ms[0]);
      LostForever(Moved(k, ms[0]), lost, ms[1..]);
    }
  }

  lemma StrandedMove(k: Kernel, lost: set<nat>, m: Move)
    requires Stranded(k, lost) && CanMove(k, m)
    ensures Stranded(Moved(k, m), lost)
  {
  }

  /** One wake-up between the link and the sleep, and all who wait on the queue sleep for ever. */
  lemma WholeQueueLost(s: State, g: Chains, t: nat, q: nat, ms: seq<Move>)
    requires Inv(s, g) && CanMove(Kernel(s, Outside), Reads(t, q))
    requires Possible(Kernel(s, Outside), [Reads(t, q), Links, Wakes(q), Dozes] + ms)
    ensures q in g.of && g.of[q] in g.chain
    ensures forall x :: x == t || x in g.chain[g.of[q]] ==>
              x in Final(Kernel(s, Outside), [Reads(t, q), Links, Wakes(q), Dozes] + ms).s.asleep
  {
    var k := Kernel(s, Outside);
    var c := g.chain[g.of[q]];
    var lost := {t} + set x | x in c;
    var k4 := Interrupted(s, t, q);
    SplitRun(k, [Reads(t, q), Links, Wakes(q), Dozes], ms);
    QueueStranded(s, g, t, q);
    InterruptedIs(s, t, q);
    LostForever(k4, lost, ms);
  }

  /** After the four moves. */
  function Interrupted(s: State, t: nat, q: nat): Kernel
    requires q in s.head
  {
    Kernel(State(s.asleep + {t}, s.head[q := NONE], s.frames[t := Frame(q, s.head[q])]), Outside)
  }

  lemma InterruptedIs(s: State, t: nat, q: nat)
    requires CanMove(Kernel(s, Outside), Reads(t, q))
    ensures var ms := [Reads(t, q), Links, Wakes(q), Dozes];
            Possible(Kernel(s, Outside), ms) && Final(Kernel(s, Outside), ms) == Interrupted(s, t, q)
  {
    var k := Kernel(s, Outside);
    var k1 := Moved(k, Reads(t, q));
    var k2 := Moved(k1, Links);
    var k3 := Moved(k2, Wakes(q));
    var ms := [Reads(t, q), Links, Wakes(q), Dozes];
    assert s.head[q := t][q := NONE] == s.head[q := NONE];
    assert s.asleep - {t} == s.asleep;
    assert Moved(k3, Dozes) == Interrupted(s, t, q);
    assert ms[1..] == [Links, Wakes(q), Dozes] && ms[1..][1..] == [Wakes(q), Dozes] && ms[1..][1..][1..] == [Dozes];
    assert Possible(k3, [Dozes]) && Final(k3, [Dozes]) == Moved(k3, Dozes);
    assert Possible(k2, [Wakes(q), Dozes]) && Final(k2, [Wakes(q), Dozes]) == Final(k3, [Dozes]);
    assert Possible(k1, [Links, Wakes(q), Dozes]);
  }

  /** A call of sleep_on that nothing disturbs, up to the wake-up and its end: the queue is then empty, the caller is
      awake and out of it, and of all others only the one that slept before it has been woken. */
  lemma WholeCall(s: State, t: nat, q: nat)
    requires t !in s.frames && t !in s.asleep && q in s.head && s.head[q] != t
    ensures var ms := [Reads(t, q), Links, Dozes, Wakes(q), Returns(t)];
            && Possible(Kernel(s, Outside), ms)
            && Final(Kernel(s, Outside), ms) ==
                 Kernel(State(if s.head[q] < 0 then s.asleep else s.asleep - {s.head[q]}, s.head[q := NONE], s.frames),
                        Outside)
  {
    var k := Kernel(s, Outside);
    var k1 := Moved(k, Reads(t, q));
    var k2 := Moved(k1, Links);
    var k3 := Moved(k2, Dozes);
    var k4 := Moved(k3, Wakes(q));
    assert s.head[q := t][q := NONE] == s.head[q := NONE];
    assert s.asleep + {t} - {t} == s.asleep && s.frames[t := Frame(q, s.head[q])] - {t} == s.frames;
    Then(k4, Returns(t), []);
    Then(k3, Wakes(q), [Returns(t)]);
    Then(k2, Dozes, [Wakes(q), Returns(t)]);
    Then(k1, Links, [Dozes, Wakes(q), Returns(t)]);
    Then(k, Reads(t, q), [Links, Dozes, Wakes(q), Returns(t)]);
  }

  lemma Then(k: Kernel, m: Move, ms: seq<Move>)
    requires CanMove(k, m) && Possible(Moved(k, m), ms)
    ensures Possible(k, [m] + ms) && Final(k, [m] + ms) == Final(Moved(k, m), ms)
  {
    assert ([m] + ms)[1..] == ms;
  }

  lemma {:induction false} SplitRun(k: Kernel, a: seq<Move>, b: seq<Move>)
    requires Possible(k, a + b)
    ensures Possible(k, a) && Possible(Final(k, a), b) && Final(k, a + b) == Final(Final(k, a), b)
    decreases |a|
  {
    hide CanMove, Moved;
    if a == [] {
      assert a + b == b;
    } else {
      assert (a + b)[1..] == a[1..] + b && (a + b)[0] == a[0];
      SplitRun(Moved(k, a[0]), a[1..], b);
    }
  }

  lemma QueueStranded(s: State, g: Chains, t: nat, q: nat)
    requires Inv(s, g) && CanMove(Kernel(s, Outside), Reads(t, q))
    ensures q in g.of && g.of[q] in g.chain
    ensures Stranded(Interrupted(s, t, q), {t} + set x | x in g.chain[g.of[q]])
  {
    var (id, k) := (g.of[q], Interrupted(s, t, q));
    var c := g.chain[id];
    forall x | x in c ensures x in s.asleep && x in s.frames && s.frames[x].queue == q && g.place[x].0 == id {
      var d :| 0 <= d < |c| && c[d] == x;
      assert InPlace(s, g, id, d) && HasPlace(g, x);
    }
    forall p | p in s.head && p != q ensures s.head[p] !in c && s.head[p] != t {
      if s.head[p] >= 0 { WakeKeeps(s, g, p); }
    }
    forall x | x in s.frames && x !in c ensures s.frames[x].tmp !in c && s.frames[x].tmp != t {
      if s.frames[x].tmp >= 0 {
        TmpSleeps(s, g, x);
        assert HasPlace(g, x);
        var (j, d) := g.place[x];
        assert InPlace(s, g, j, d) && InPlace(s, g, j, d - 1);
      }
    }
  }
}

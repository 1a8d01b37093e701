/** sleep_on and wake_up (linux-0.11/kernel/sched.c). A wait queue is a pointer
    to the last task that went to sleep; each sleeper remembers on its own stack
    who was there before it, and wakes that task when it runs again. Here sleep_on
    runs with interrupts off, up to schedule; module SleepRaces is about the one
    caller for which it does not, linux-0.11/kernel/blk_drv/ll_rw_blk.c:129. */
module SleepQueues {

  const NONE := -1

  /** A call of sleep_on that has not returned: its queue, and its variable tmp. */
  datatype Frame = Frame(queue: nat, tmp: int)

  /** asleep: the tasks in state TASK_UNINTERRUPTIBLE; head: *p of each queue. */
  datatype State = State(asleep: set<nat>, head: map<nat, int>, frames: map<nat, Frame>)

  /** Sleep: a task calls sleep_on, up to schedule. Wake: wake_up is called.
      Resume: a woken task runs again and finishes sleep_on. */
  datatype Event = Sleep(t: nat, queue: nat) | Wake(queue: nat) | Resume(t: nat)

  predicate Enabled(s: State, e: Event) {
    match e
    case Sleep(t, q) => t !in s.frames && t !in s.asleep && q in s.head
    case Wake(q) => q in s.head
    case Resume(t) => t in s.frames && t !in s.asleep
  }

  function Apply(s: State, e: Event): State
    requires Enabled(s, e)
  {
    match e
    case Sleep(t, q) => State(s.asleep + {t}, s.head[q := t], s.frames[t := Frame(q, s.head[q])])
    case Wake(q) => if s.head[q] < 0 then s else State(s.asleep - {s.head[q]}, s.head[q := NONE], s.frames)
    case Resume(t) =>
      var tmp := s.frames[t].tmp;
      State(if tmp < 0 then s.asleep else s.asleep - {tmp}, s.head, s.frames - {t})
  }

  // ---- The chains through the tmp variables ----

  /** Chains by number, the task that went to sleep first at place 0. of: the chain now on a
      queue; the other chains have been woken. place: where a task is. */
  datatype Chains = Chains(chain: map<nat, seq<nat>>, of: map<nat, nat>, queue: map<nat, nat>,
                           place: map<nat, (nat, nat)>, serial: nat)

  predicate OnQueue(g: Chains, id: nat) { id in g.queue && g.queue[id] in g.of && g.of[g.queue[id]] == id }

  /** The chain of each queue ends at its head. */
  ghost predicate HeadsRight(s: State, g: Chains) {
    && (forall q :: q in s.head <==> q in g.of)
    && (forall q :: q in g.of ==> g.of[q] in g.chain && g.of[q] in g.queue && g.queue[g.of[q]] == q)
    && (forall q :: q in g.of ==> s.head[q] == Last(g.chain[g.of[q]]))
    && (forall id :: id in g.chain ==> id < g.serial && id in g.queue)
  }

  function Last(c: seq<nat>): int { if c == [] then NONE else c[|c| - 1] }

  function Below(c: seq<nat>, d: nat): int
    requires d < |c|
  {
    if d == 0 then NONE else c[d - 1]
  }

  /** Every task on a chain is in sleep_on and remembers the one before it; every task in
      sleep_on is on one chain, at one place. */
  ghost predicate ChainsRight(s: State, g: Chains) {
    && (forall id, d: nat :: id in g.chain && d < |g.chain[id]| ==> InPlace(s, g, id, d))
    && (forall t :: t in s.frames <==> t in g.place)
    && (forall t :: t in g.place ==> HasPlace(g, t))
  }

  ghost predicate InPlace(s: State, g: Chains, id: nat, d: nat)
    requires id in g.chain && d < |g.chain[id]|
  {
    var t := g.chain[id][d];
    && t in s.frames && s.frames[t].tmp == Below(g.chain[id], d)
    && t in g.place && g.place[t] == (id, d)
    && id in g.queue && s.frames[t].queue == g.queue[id]
  }

  ghost predicate HasPlace(g: Chains, t: nat)
    requires t in g.place
  {
    var (id, d) := g.place[t]; id in g.chain && d < |g.chain[id]| && g.chain[id][d] == t
  }

  /** A task in sleep_on is awake exactly if it is the last of a chain that has been woken. */
  ghost predicate AwakeRight(s: State, g: Chains) {
    && (forall t :: t in s.asleep ==> t in s.frames)
    && (forall t :: t in g.place && HasPlace(g, t) ==>
          (t !in s.asleep <==> Ahead(g, t) == 0 && !OnQueue(g, g.place[t].0)))
  }

  /** How many tasks of its chain have to run before this one is woken. */
  function Ahead(g: Chains, t: nat): nat
    requires t in g.place && g.place[t].0 in g.chain && g.place[t].1 < |g.chain[g.place[t].0]|
  {
    |g.chain[g.place[t].0]| - 1 - g.place[t].1
  }

  ghost predicate Inv(s: State, g: Chains) { HeadsRight(s, g) && ChainsRight(s, g) && AwakeRight(s, g) }

  /** The chains after a step. */
  function Track(s: State, g: Chains, e: Event): Chains
    requires Enabled(s, e)
    requires e.Sleep? || e.Wake? ==> e.queue in g.of && g.of[e.queue] in g.chain
    requires e.Resume? ==> e.t in g.place && g.place[e.t].0 in g.chain && g.chain[g.place[e.t].0] != []
  {
    match e
    case Sleep(t, q) =>
      var id := g.of[q];
      g.(chain := g.chain[id := g.chain[id] + [t]], place := g.place[t := (id, |g.chain[id]|)])
    case Wake(q) =>
      if s.head[q] < 0 then g
      else g.(chain := g.chain[g.serial := []], of := g.of[q := g.serial],
              queue := g.queue[g.serial := q], serial := g.serial + 1)
    case Resume(t) =>
      var id := g.place[t].0;
      g.(chain := g.chain[id := g.chain[id][..|g.chain[id]| - 1]], place := g.place - {t})
  }

  lemma CanTrack(s: State, g: Chains, e: Event)
    requires Inv(s, g) && Enabled(s, e)
    ensures e.Sleep? || e.Wake? ==> e.queue in g.of && g.of[e.queue] in g.chain
    ensures e.Resume? ==> e.t in g.place && g.place[e.t].0 in g.chain && g.chain[g.place[e.t].0] != []
  {
    if e.Resume? { assert HasPlace(g, e.t); }
  }

  lemma SleepKeeps(s: State, g: Chains, t: nat, q: nat)
    requires Inv(s, g) && Enabled(s, Sleep(t, q))
    ensures q in g.of && g.of[q] in g.chain && Inv(Apply(s, Sleep(t, q)), Track(s, g, Sleep(t, q)))
  {
    hide HeadsRight, ChainsRight, AwakeRight;
    QueueChain(s, g, q);
    SleepHeads(s, g, t, q);
    SleepChains(s, g, t, q);
    SleepAwake(s, g, t, q);
  }

  lemma QueueChain(s: State, g: Chains, q: nat)
    requires HeadsRight(s, g) && q in s.head
    ensures q in g.of && g.of[q] in g.chain
  {
  }

  lemma SleepHeads(s: State, g: Chains, t: nat, q: nat)
    requires HeadsRight(s, g) && Enabled(s, Sleep(t, q)) && q in g.of && g.of[q] in g.chain
    ensures HeadsRight(Apply(s, Sleep(t, q)), Track(s, g, Sleep(t, q)))
  {
  }

  lemma SleepChains(s: State, g: Chains, t: nat, q: nat)
    requires HeadsRight(s, g) && ChainsRight(s, g) && Enabled(s, Sleep(t, q)) && q in g.of && g.of[q] in g.chain
    ensures ChainsRight(Apply(s, Sleep(t, q)), Track(s, g, Sleep(t, q)))
  {
    var (s', g') := (Apply(s, Sleep(t, q)), Track(s, g, Sleep(t, q)));
    var k := g.of[q];
    forall id, d: nat | id in g'.chain && d < |g'.chain[id]| ensures InPlace(s', g', id, d) {
      if id == k && d == |g.chain[k]| {} else { assert InPlace(s, g, id, d); }
    }
    forall x | x in g'.place ensures HasPlace(g', x) { if x != t { assert HasPlace(g, x); } }
  }

  lemma SleepAwake(s: State, g: Chains, t: nat, q: nat)
    requires Inv(s, g) && Enabled(s, Sleep(t, q)) && q in g.of && g.of[q] in g.chain
    ensures AwakeRight(Apply(s, Sleep(t, q)), Track(s, g, Sleep(t, q)))
  {
    var (s', g') := (Apply(s, Sleep(t, q)), Track(s, g, Sleep(t, q)));
    forall x | x in g'.place && HasPlace(g', x)
      ensures x !in s'.asleep <==> Ahead(g', x) == 0 && !OnQueue(g', g'.place[x].0)
    {
      if x != t { assert HasPlace(g, x); }
    }
  }

  ghost predicate SleepsOn(s: State, t: nat, q: nat) { t in s.asleep && t in s.frames && s.frames[t].queue == q }

  lemma WakeKeeps(s: State, g: Chains, q: nat)
    requires Inv(s, g) && Enabled(s, Wake(q))
    ensures q in g.of && g.of[q] in g.chain && Inv(Apply(s, Wake(q)), Track(s, g, Wake(q)))
    ensures s.head[q] >= 0 ==> SleepsOn(s, s.head[q], q)
  {
    var e := Wake(q);
    var (s', g') := (Apply(s, e), Track(s, g, e));
    var k := g.of[q];
    if s.head[q] >= 0 {
      var h: nat := s.head[q];
      assert InPlace(s, g, k, |g.chain[k]| - 1);
      forall id, d: nat | id in g'.chain && d < |g'.chain[id]| ensures InPlace(s', g', id, d) {
        assert InPlace(s, g, id, d);
      }
      forall x | x in g'.place ensures HasPlace(g', x) { assert HasPlace(g, x); }
      forall x | x in g'.place ensures x !in s'.asleep <==> Ahead(g', x) == 0 && !OnQueue(g', g'.place[x].0) {
        assert HasPlace(g, x);
      }
    }
  }

  /** The task a resuming one wakes is asleep, on the same queue: no task is woken that has
      already left. */
  lemma ResumeKeeps(s: State, g: Chains, t: nat)
    requires Inv(s, g) && Enabled(s, Resume(t))
    ensures t in g.place && g.place[t].0 in g.chain && g.chain[g.place[t].0] != []
    ensures Inv(Apply(s, Resume(t)), Track(s, g, Resume(t)))
    ensures s.frames[t].tmp >= 0 ==> SleepsOn(s, s.frames[t].tmp, s.frames[t].queue)
  {
    assert HasPlace(g, t);
    var e := Resume(t);
    var (s', g') := (Apply(s, e), Track(s, g, e));
    var (k, n) := (g.place[t].0, |g.chain[g.place[t].0]|);
    assert InPlace(s, g, k, n - 1);
    if n > 1 { assert InPlace(s, g, k, n - 2); assert HasPlace(g, g.chain[k][n - 2]); }
    forall id, d: nat | id in g'.chain && d < |g'.chain[id]| ensures InPlace(s', g', id, d) {
      assert InPlace(s, g, id, d);
    }
    forall x | x in g'.place ensures HasPlace(g', x) { assert HasPlace(g, x); }
    forall x | x in g'.place ensures x !in s'.asleep <==> Ahead(g', x) == 0 && !OnQueue(g', g'.place[x].0) {
      assert HasPlace(g, x);
      var (id, d) := g.place[x];
      assert InPlace(s, g, id, d);
    }
  }

  lemma StepKeeps(s: State, g: Chains, e: Event)
    requires Inv(s, g) && Enabled(s, e)
    ensures e.Sleep? || e.Wake? ==> e.queue in g.of && g.of[e.queue] in g.chain
    ensures e.Resume? ==> e.t in g.place && g.place[e.t].0 in g.chain && g.chain[g.place[e.t].0] != []
    ensures Inv(Apply(s, e), Track(s, g, e))
  {
    hide Inv;
    CanTrack(s, g, e);
    match e
    case Sleep(t, q) => SleepKeeps(s, g, t, q);
    case Wake(q) => WakeKeeps(s, g, q);
    case Resume(t) => ResumeKeeps(s, g, t);
  }

  // ---- Nobody is lost ----

  /** Following tmp n times. */
  ghost function Hop(s: State, from: int, n: nat): int {
    if n == 0 then from
    else
      var x := Hop(s, from, n - 1);
      if x in s.frames then s.frames[x].tmp else NONE
  }

  lemma {:induction false} HopAlong(s: State, g: Chains, id: nat, n: nat)
    requires Inv(s, g) && id in g.chain && n < |g.chain[id]|
    ensures Hop(s, Last(g.chain[id]), n) == g.chain[id][|g.chain[id]| - 1 - n]
  {
    hide HeadsRight, AwakeRight;
    if n > 0 {
      HopAlong(s, g, id, n - 1);
      assert InPlace(s, g, id, |g.chain[id]| - n);
    }
  }

  /** Every sleeper can be reached through the tmp variables, from the head of its queue or
      from a task that has been woken and will run. */
  lemma SleeperReachable(s: State, g: Chains, t: nat) returns (from: int, n: nat)
    requires Inv(s, g) && t in s.asleep
    ensures Hop(s, from, n) == t && t in s.frames
    ensures (s.frames[t].queue in s.head && from == s.head[s.frames[t].queue]) ||
              (from in s.frames && from !in s.asleep)
  {
    assert HasPlace(g, t);
    var (id, d) := g.place[t];
    assert InPlace(s, g, id, d);
    n := Ahead(g, t);
    from := Last(g.chain[id]);
    HopAlong(s, g, id, n);
    if !OnQueue(g, id) {
      assert InPlace(s, g, id, |g.chain[id]| - 1);
      assert HasPlace(g, from);
    }
  }

  /** wake_up takes everyone then asleep on the queue off it at once. */
  lemma WakeTakesAll(s: State, g: Chains, q: nat, t: nat)
    requires Inv(s, g) && Enabled(s, Wake(q)) && t in s.asleep && t in g.place && OnQueue(g, g.place[t].0)
    requires t in s.frames && s.frames[t].queue == q
    ensures q in g.of && g.of[q] in g.chain && g.place[t].0 == g.of[q] && HasPlace(g, t)
    ensures var g' := Track(s, g, Wake(q));
            t in g'.place && g'.place[t] == g.place[t] && !OnQueue(g', g'.place[t].0) && HasPlace(g', t) &&
                Ahead(g', t) == Ahead(g, t)
  {
    assert HasPlace(g, t);
    var (id, d) := g.place[t];
    assert InPlace(s, g, id, d);
  }

  /** In a woken chain each step either lets the last task of the chain go, or leaves it alone. */
  lemma StepAhead(s: State, g: Chains, e: Event, t: nat)
    requires Inv(s, g) && Enabled(s, e) && t in g.place && !OnQueue(g, g.place[t].0) && HasPlace(g, t) && e != Resume(t)
    ensures e.Sleep? || e.Wake? ==> e.queue in g.of && g.of[e.queue] in g.chain
    ensures e.Resume? ==> e.t in g.place && g.place[e.t].0 in g.chain && g.chain[g.place[e.t].0] != []
    ensures var g' := Track(s, g, e);
            && t in g'.place && g'.place[t] == g.place[t] && !OnQueue(g', g'.place[t].0) && HasPlace(g', t)
            && Ahead(g', t) == Ahead(g, t) - (if OfChain(g, e, g.place[t].0) then 1 else 0)
  {
    CanTrack(s, g, e);
    if e.Resume? { assert HasPlace(g, e.t); }
    if e.Sleep? { assert OnQueue(g, g.of[e.queue]); }
  }

  predicate OfChain(g: Chains, e: Event, id: nat) { e.Resume? && e.t in g.place && g.place[e.t].0 == id }

  // ---- Runs ----

  ghost predicate Possible(s: State, es: seq<Event>)
    decreases |es|
  {
    es == [] || (Enabled(s, es[0]) && Possible(Apply(s, es[0]), es[1..]))
  }

  ghost function Final(s: State, es: seq<Event>): State
    requires Possible(s, es)
    decreases |es|
  {
    if es == [] then s else Final(Apply(s, es[0]), es[1..])
  }

  /** The chains at the end of a run: they are right in every state of it. */
  ghost function Tracked(s: State, g: Chains, es: seq<Event>): (h: Chains)
    requires Inv(s, g) && Possible(s, es)
    ensures Inv(Final(s, es), h)
    decreases |es|
  {
    if es == [] then g
    else
      StepKeeps(s, g, es[0]);
      Tracked(Apply(s, es[0]), Track(s, g, es[0]), es[1..])
  }

  /** In every state reached from empty queues each sleeper can be reached through the tmp variables, from the
      head of its queue or from a task in sleep_on that is already awake. */
  lemma AlwaysReachable(queues: set<nat>, es: seq<Event>, t: nat) returns (from: int, n: nat)
    requires Possible(Start(queues), es) && t in Final(Start(queues), es).asleep
    ensures var s := Final(Start(queues), es);
            && Hop(s, from, n) == t && t in s.frames
            && ((s.frames[t].queue in s.head && from == s.head[s.frames[t].queue]) ||
                  (from in s.frames && from !in s.asleep))
  {
    hide Inv, Possible, Final;
    var g := StartInv(queues);
    from, n := SleeperReachable(Final(Start(queues), es), Tracked(Start(queues), g, es), t);
  }

  /** How often a task of chain `id` resumes in the run. */
  ghost function Resumes(s: State, g: Chains, es: seq<Event>, id: nat): nat
    requires Inv(s, g) && Possible(s, es)
    decreases |es|
  {
    if es == [] then 0
    else
      StepKeeps(s, g, es[0]);
      (if OfChain(g, es[0], id) then 1 else 0) + Resumes(Apply(s, es[0]), Track(s, g, es[0]), es[1..], id)
  }

  /** No wake-up is lost, and none is given twice: a task of a woken chain is awake exactly when
      as many tasks of its chain have resumed as were ahead of it, whatever else happens. */
  lemma {:induction false} WokenInTurn(s: State, g: Chains, es: seq<Event>, t: nat)
    requires Inv(s, g) && Possible(s, es) && Resume(t) !in es
    requires t in g.place && !OnQueue(g, g.place[t].0) && HasPlace(g, t)
    ensures Resumes(s, g, es, g.place[t].0) <= Ahead(g, t)
    ensures t in Final(s, es).frames
    ensures t !in Final(s, es).asleep <==> Resumes(s, g, es, g.place[t].0) == Ahead(g, t)
    decreases |es|
  {
    hide Inv, Apply, Track, Enabled;
    if es == [] {
      AwakeIff(s, g, t);
    } else {
      StepKeeps(s, g, es[0]);
      StepAhead(s, g, es[0], t);
      WokenInTurn(Apply(s, es[0]), Track(s, g, es[0]), es[1..], t);
    }
  }

  /** A task that sleeps on a queue when wake_up is called is awake as soon as those who went to sleep after it
      have resumed, and not before. */
  lemma WakeReachesAll(s: State, g: Chains, q: nat, es: seq<Event>, t: nat)
    requires Inv(s, g) && Enabled(s, Wake(q)) && SleepsOn(s, t, q)
    requires t in g.place && OnQueue(g, g.place[t].0) && Possible(s, [Wake(q)] + es) && Resume(t) !in es
    ensures q in g.of && g.of[q] in g.chain && Inv(Apply(s, Wake(q)), Track(s, g, Wake(q)))
    ensures Possible(Apply(s, Wake(q)), es)
    ensures t in g.chain[g.of[q]] && HasPlace(g, t)
    ensures t !in Final(Apply(s, Wake(q)), es).asleep
            <==> Resumes(Apply(s, Wake(q)), Track(s, g, Wake(q)), es, g.of[q]) == Ahead(g, t)
  {
    hide Inv, Possible, Final, Resumes;
    StepKeeps(s, g, Wake(q));
    WakeTakesAll(s, g, q, t);
    PossibleTail(s, Wake(q), es);
    WokenInTurn(Apply(s, Wake(q)), Track(s, g, Wake(q)), es, t);
  }

  lemma PossibleTail(s: State, e: Event, es: seq<Event>)
    requires Possible(s, [e] + es)
    ensures Enabled(s, e) && Possible(Apply(s, e), es)
  {
    assert ([e] + es)[1..] == es;
  }

  lemma AwakeIff(s: State, g: Chains, t: nat)
    requires Inv(s, g) && t in g.place && !OnQueue(g, g.place[t].0) && HasPlace(g, t)
    ensures t in s.frames && (t !in s.asleep <==> Ahead(g, t) == 0)
  {
  }

  /** Empty queues, nobody asleep. */
  function Start(queues: set<nat>): State { State({}, map q | q in queues :: NONE, map[]) }

  lemma StartInv(queues: set<nat>) returns (g: Chains)
    ensures Inv(Start(queues), g)
  {
    var s := Start(queues);
    var n := Beyond(queues);
    g := Chains(map q | q in queues :: [], map q | q in queues :: q, map q | q in queues :: q, map[], n);
    assert Inv(s, g);
  }

  lemma {:induction false} Beyond(qs: set<nat>) returns (n: nat)
    ensures forall q :: q in qs ==> q < n
    decreases |qs|
  {
    if qs == {} {
      n := 0;
    } else {
      var q :| q in qs;
      var m := Beyond(qs - {q});
      n := if q >= m then q + 1 else m;
      forall x | x in qs ensures x < n { if x != q { assert x in qs - {q}; } }
    }
  }

  // ---- What each call does to the queues ----

  ghost predicate IsTask(g: Chains, t: nat) { t in g.place && HasPlace(g, t) }

  /** The tasks on queue q, the first to go to sleep at the front. */
  ghost function Waiting(s: State, g: Chains, q: nat): (c: seq<nat>)
    requires Inv(s, g) && q in s.head
    ensures s.head[q] == Last(c)
  {
    g.chain[g.of[q]]
  }

  /** The tasks that were on one queue together with t and have not left sleep_on. */
  ghost function Group(s: State, g: Chains, t: nat): seq<nat>
    requires Inv(s, g) && t in s.frames
  {
    g.chain[g.place[t].0]
  }

  lemma Members(s: State, g: Chains)
    requires Inv(s, g)
    ensures forall t :: t in s.frames <==> t in g.place
    ensures forall t :: t in s.frames ==> IsTask(g, t)
  {
  }

  lemma PlaceOn(s: State, g: Chains, id: nat, x: nat)
    requires Inv(s, g) && id in g.chain && x in g.chain[id]
    ensures x in g.place && g.place[x].0 == id
  {
    var k :| 0 <= k < |g.chain[id]| && g.chain[id][k] == x;
    assert InPlace(s, g, id, k);
  }

  lemma InGroup(s: State, g: Chains, id: nat, x: nat)
    requires Inv(s, g) && id in g.chain && x in s.frames
    ensures x in g.place && (x in g.chain[id] <==> g.place[x].0 == id)
  {
    assert IsTask(g, x);
    if x in g.chain[id] { PlaceOn(s, g, id, x); }
  }

  /** An awake task in sleep_on is the last of its group, and remembers the one before it. */
  lemma LastOfGroup(s: State, g: Chains, t: nat)
    requires Inv(s, g) && Enabled(s, Resume(t))
    ensures Group(s, g, t) != [] && Last(Group(s, g, t)) == t
    ensures s.frames[t].tmp == Last(Group(s, g, t)[..|Group(s, g, t)| - 1])
    ensures s.frames[t].tmp >= 0 ==> s.frames[t].tmp in s.asleep
  {
    assert IsTask(g, t);
    var (id, d) := g.place[t];
    assert InPlace(s, g, id, d);
    if d > 0 { assert InPlace(s, g, id, d - 1) && HasPlace(g, g.chain[id][d - 1]); }
  }

  lemma OneQueue(s: State, g: Chains, t: nat)
    requires Inv(s, g) && Enabled(s, Resume(t))
    ensures t in g.place && !OnQueue(g, g.place[t].0)
  {
    assert IsTask(g, t);
  }

  /** The sleeper is the last on its queue; no other queue changes, and no group but that of the queue. */
  lemma SleepAdds(s: State, g: Chains, t: nat, q: nat)
    requires Inv(s, g) && Enabled(s, Sleep(t, q))
    ensures q in g.of && g.of[q] in g.chain
    ensures var (s', g') := (Apply(s, Sleep(t, q)), Track(s, g, Sleep(t, q)));
            && Inv(s', g')
            && (forall p :: p in s.head ==>
                  p in s'.head && Waiting(s', g', p) == Waiting(s, g, p) + if p == q then [t] else [])
            && t in s'.frames && Group(s', g', t) == Waiting(s', g', q)
            && (forall x :: x in s.frames ==> x in s'.frames)
            && (forall x :: x in s.frames ==> Group(s', g', x) == if x in Waiting(s, g, q) then Waiting(s', g', q)
                  else Group(s, g, x))
  {
    hide ChainsRight, AwakeRight, IsTask;
    SleepKeeps(s, g, t, q);
    Members(s, g);
    Members(Apply(s, Sleep(t, q)), Track(s, g, Sleep(t, q)));
    forall x | x in s.frames ensures x in Waiting(s, g, q) <==> g.place[x].0 == g.of[q] { InGroup(s, g, g.of[q], x); }
  }

  /** The queue is empty, its last task is awake, and those who were on it stay together. */
  lemma WakeEmpties(s: State, g: Chains, q: nat)
    requires Inv(s, g) && Enabled(s, Wake(q))
    ensures q in g.of && g.of[q] in g.chain
    ensures var (s', g') := (Apply(s, Wake(q)), Track(s, g, Wake(q)));
            && Inv(s', g') && s'.frames == s.frames
            && (forall p :: p in s.head ==> p in s'.head && Waiting(s', g', p) == if p == q then []
                  else Waiting(s, g, p))
            && (forall x :: x in s.frames ==> Group(s', g', x) == Group(s, g, x))
            && (forall x :: x in s.asleep && x !in s'.asleep <==> Waiting(s, g, q) != [] && x == Last(Waiting(s, g, q)))
  {
    WakeKeeps(s, g, q);
  }

  /** The task that resumes is the last of its group; it leaves the group and wakes the one before it. */
  lemma ResumeLeaves(s: State, g: Chains, t: nat)
    requires Inv(s, g) && Enabled(s, Resume(t))
    ensures t in g.place && g.place[t].0 in g.chain && g.chain[g.place[t].0] != []
    ensures var (s', g') := (Apply(s, Resume(t)), Track(s, g, Resume(t)));
            && Inv(s', g') && Last(Group(s, g, t)) == t
            && (forall p :: p in s.head ==> p in s'.head && Waiting(s', g', p) == Waiting(s, g, p))
            && (forall x :: x in s'.frames ==>
                  x in s.frames && Group(s', g', x) == if x in Group(s, g, t)
                      then Group(s, g, t)[..|Group(s, g, t)| - 1] else Group(s, g, x))
            && (forall x :: x in s.asleep && x !in s'.asleep <==>
                  |Group(s, g, t)| > 1 && x == Group(s, g, t)[|Group(s, g, t)| - 2])
  {
    hide ChainsRight, AwakeRight, IsTask;
    ResumeKeeps(s, g, t);
    Members(s, g);
    Members(Apply(s, Resume(t)), Track(s, g, Resume(t)));
    LastOfGroup(s, g, t);
    OneQueue(s, g, t);
    forall x | x in s.frames ensures x in Group(s, g, t) <==> g.place[x].0 == g.place[t].0 {
      InGroup(s, g, g.place[t].0, x);
    }
  }

  // ---- The code ----

  /** Task states, the queue heads and the stacks of the calls of sleep_on; the chains they spell out are ghost. */
  class WaitQueues {
    var asleep: set<nat>          // state is TASK_UNINTERRUPTIBLE
    var head: map<nat, int>
    var frames: map<nat, Frame>
    ghost var chains: Chains

    ghost function Abs(): State
      reads this
    {
      State(asleep, head, frames)
    }

    ghost predicate Valid()
      reads this
    {
      Inv(Abs(), chains)
    }

    /** The tasks on queue p, the first to go to sleep at the front. */
    ghost function On(p: nat): seq<nat>
      requires Valid() && p in head
      reads this
    {
      Waiting(Abs(), chains, p)
    }

    /** The tasks that were on one queue together with t and have not left sleep_on; the last one leaves next. */
    ghost function With(t: nat): (c: seq<nat>)
      requires Valid() && t in frames
      reads this
    {
      Group(Abs(), chains, t)
    }

    constructor (queues: set<nat>)
      ensures Valid() && asleep == {} && frames == map[] && head.Keys == queues && forall p :: p in queues ==>
                On(p) == []
    {
      asleep, head, frames := {}, map q | q in queues :: NONE, map[];
      new;
      chains := StartInv(queues);
      assert Abs() == Start(queues);
    }

    /** sleep_on, until it calls schedule: the caller is the last on its queue, and no other queue changes. */
    method SleepOn(current: nat, p: nat)
      requires Valid() && p in head && current !in frames && current !in asleep
      modifies this
      ensures Valid() && head.Keys == old(head.Keys) && asleep == old(asleep) + {current}
      ensures frames.Keys == old(frames.Keys) + {current} && With(current) == On(p)
      ensures forall q :: q in head ==> On(q) == old(On(q)) + if q == p then [current] else []
      ensures forall t :: t in old(frames) ==> With(t) == if t in old(On(p)) then On(p) else old(With(t))
    {
      hide Inv, Waiting, Group, Track;
      ghost var (s, g) := (Abs(), chains);
      SleepAdds(s, g, current, p);
      var tmp := head[p];
      head := head[p := current];
      asleep := asleep + {current};
      frames := frames[current := Frame(p, tmp)];
      chains := Track(s, g, Sleep(current, p));
    }

    /** sleep_on, from where schedule returns: the caller was the last of its group, leaves it, and wakes the one
        before it and nobody else. */
    method SleepOnReturns(current: nat)
      requires Valid() && current in frames && current !in asleep
      modifies this
      ensures Valid() && head == old(head) && frames == old(frames) - {current}
      ensures forall q :: q in head ==> On(q) == old(On(q))
      ensures var c := old(With(current));
              && Last(c) == current && asleep == old(asleep) - (if |c| > 1 then {c[|c| - 2]} else {})
              && forall t :: t in frames ==> With(t) == if t in c then c[..|c| - 1] else old(With(t))
    {
      hide Inv, Waiting, Group, Track;
      ghost var (s, g) := (Abs(), chains);
      ResumeLeaves(s, g, current);
      var tmp := frames[current].tmp;
      frames := frames - {current};
      if tmp >= 0 { asleep := asleep - {tmp}; }
      chains := Track(s, g, Resume(current));
    }

    /** The queue is empty, the last on it is awake and nobody else, and those who were on it stay together. */
    method WakeUp(p: nat)
      requires Valid() && p in head
      modifies this
      ensures Valid() && head.Keys == old(head.Keys) && frames == old(frames)
      ensures forall q :: q in head ==> On(q) == if q == p then [] else old(On(q))
      ensures forall t :: t in frames ==> With(t) == old(With(t))
      ensures var c := old(On(p)); asleep == old(asleep) - (if c == [] then {} else {c[|c| - 1]})
    {
      hide Inv, Waiting, Group, Track;
      ghost var (s, g) := (Abs(), chains);
      WakeEmpties(s, g, p);
      if head[p] >= 0 {
        asleep := asleep - {head[p]};
        head := head[p := NONE];
      }
      chains := Track(s, g, Wake(p));
    }
  }
}

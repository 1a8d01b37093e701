/** The scheduler (linux-0.11/kernel/sched.c): the runnable task with the largest
    counter runs, counters are recharged when all are used up, and no runnable
    task waits for ever. In the runs below a call of schedule is one step. It has
    interrupts on, and a wake-up or a tick can come during its scan: InterruptedScan
    says what the scan finds then. */
module Scheduling {

  import opened Basics

  /** task_struct, as far as the scheduler reads it. */
  datatype Task = Task(running: bool, counter: nat, priority: nat)

  datatype Slot = Free | Used(t: Task)

  ghost predicate Valid(tasks: seq<Slot>) {
    && |tasks| == NR_TASKS && tasks[0].Used?
    && (forall i :: 0 <= i < |tasks| && tasks[i].Used? ==>
          0 < tasks[i].t.priority && tasks[i].t.counter <= 2 * tasks[i].t.priority)
  }

  predicate Runnable(s: Slot) { s.Used? && s.t.running }

  /** The largest counter among runnable tasks 1 .. i - 1, and the last task that has it;
      (c, next) if none exceeds c. */
  function Best(tasks: seq<Slot>, i: nat, c: int, next: nat): (int, nat)
    requires 1 <= i <= |tasks|
    decreases i
  {
    if i == 1 then (c, next)
    else if Runnable(tasks[i - 1]) && tasks[i - 1].t.counter > c then Best(tasks, i - 1, tasks[i - 1].t.counter, i - 1)
    else Best(tasks, i - 1, c, next)
  }

  function Recharged(s: Slot): Slot {
    if s.Used? then Used(s.t.(counter := s.t.counter / 2 + s.t.priority)) else s
  }

  /** One round of recharging: everyone but task 0. */
  ghost function Recharge(tasks: seq<Slot>): (r: seq<Slot>)
    requires tasks != []
  {
    seq(|tasks|, i requires 0 <= i < |tasks| => if i == 0 then tasks[0] else Recharged(tasks[i]))
  }

  /** schedule: the task table afterwards, and the task picked. */
  ghost function Scheduled(tasks: seq<Slot>): (r: (seq<Slot>, nat))
    requires Valid(tasks)
  {
    var (c, next) := Best(tasks, NR_TASKS, -1, 0);
    if c != 0 then (tasks, next) else (Recharge(tasks), Best(Recharge(tasks), NR_TASKS, -1, 0).1)
  }

  // ---- What schedule picks ----

  lemma {:induction false} BestIs(tasks: seq<Slot>, i: nat, c: int, next: nat)
    requires 1 <= i <= |tasks|
    ensures var (m, k) := Best(tasks, i, c, next);
            && m >= c && (m == c ==> k == next)
            && (m > c ==> 1 <= k < i && Runnable(tasks[k]) && tasks[k].t.counter == m)
            && (m > c ==> forall j :: k < j < i && Runnable(tasks[j]) ==> tasks[j].t.counter < m)
            && (forall j :: 1 <= j < i && Runnable(tasks[j]) ==> tasks[j].t.counter <= m)
    decreases i
  {
    if i > 1 {
      if Runnable(tasks[i - 1]) && tasks[i - 1].t.counter > c {
        BestIs(tasks, i - 1, tasks[i - 1].t.counter, i - 1);
      } else {
        BestIs(tasks, i - 1, c, next);
      }
    }
  }

  lemma RechargeKeeps(tasks: seq<Slot>)
    requires Valid(tasks)
    ensures Valid(Recharge(tasks))
    ensures forall i :: 0 <= i < NR_TASKS ==> Runnable(Recharge(tasks)[i]) == Runnable(tasks[i])
    ensures forall i :: 1 <= i < NR_TASKS && tasks[i].Used? ==> Recharge(tasks)[i].t.counter > 0
  {
  }

  /** The task picked is runnable and none has a larger counter, of those that have the same it is the last in the
      table; it is task 0 exactly if no other can run. One round of recharging is always enough, so its counter is
      not 0. */
  lemma SchedulePicks(tasks: seq<Slot>)
    requires Valid(tasks)
    ensures var (tasks', k) := Scheduled(tasks);
            && Valid(tasks') && k < NR_TASKS
            && (forall i :: 0 <= i < NR_TASKS ==> Runnable(tasks'[i]) == Runnable(tasks[i]))
            && (k == 0 <==> forall i :: 1 <= i < NR_TASKS ==> !Runnable(tasks[i]))
            && (k != 0 ==> tasks'[k].Used? && tasks'[k].t.running && tasks'[k].t.counter > 0)
            && (k != 0 ==> forall i :: 1 <= i < NR_TASKS && Runnable(tasks'[i]) ==>
                  tasks'[i].t.counter <= tasks'[k].t.counter && (i > k ==> tasks'[i].t.counter < tasks'[k].t.counter))
  {
    BestIs(tasks, NR_TASKS, -1, 0);
    RechargeKeeps(tasks);
    BestIs(Recharge(tasks), NR_TASKS, -1, 0);
  }

  /** Counters are recharged only when every runnable task has used its up. */
  lemma RechargeNeeded(tasks: seq<Slot>)
    requires Valid(tasks)
    ensures Scheduled(tasks).0 == tasks ||
            (Scheduled(tasks).0 == Recharge(tasks) && forall i :: 1 <= i < NR_TASKS && Runnable(tasks[i]) ==>
                tasks[i].t.counter == 0)
  {
    BestIs(tasks, NR_TASKS, -1, 0);
  }

  /** What recharging is for: a runnable task gets as many units as its priority, and a task that sleeps with units
      left gets ahead of runnable tasks of its priority, but never to more than twice that. */
  lemma SleepersGain(tasks: seq<Slot>, i: nat, j: nat)
    requires Valid(tasks) && Scheduled(tasks).0 != tasks && 1 <= i < NR_TASKS && 1 <= j < NR_TASKS
    requires Runnable(tasks[i]) && tasks[j].Used? && tasks[i].t.priority == tasks[j].t.priority
    ensures var tasks' := Scheduled(tasks).0;
            && Runnable(tasks'[i]) && tasks'[i].t.counter == tasks[i].t.priority
            && tasks'[j].Used? && tasks'[i].t.counter <= tasks'[j].t.counter <= 2 * tasks[j].t.priority
            && (tasks[j].t.counter > 1 ==> tasks'[i].t.counter < tasks'[j].t.counter)
            && tasks'[0] == tasks[0]
  {
    RechargeNeeded(tasks);
    RechargeKeeps(tasks);
  }

  // ---- A scan that is interrupted ----

  function Set(tasks: seq<Slot>, i: nat, t: Task): seq<Slot>
    requires i < |tasks|
  {
    tasks[i := Used(t)]
  }

  /** The scan when interrupts come during it; views[j] is the table when task j is looked at. */
  function Seen(views: seq<seq<Slot>>, i: nat, c: int, next: nat): (int, nat)
    requires 1 <= i <= |views| && forall j :: 0 <= j < |views| ==> |views[j]| == |views|
    decreases i
  {
    if i == 1 then (c, next)
    else
      var x := views[i - 1][i - 1];
      if Runnable(x) && x.t.counter > c then Seen(views, i - 1, x.t.counter, i - 1) else Seen(views, i - 1, c, next)
  }

  /** Each task as the scan saw it: whatever happened to a task after it was looked at comes after the scan. */
  function AsSeen(views: seq<seq<Slot>>): (r: seq<Slot>)
    requires forall j :: 0 <= j < |views| ==> |views[j]| == |views|
    ensures |r| == |views|
  {
    seq(|views|, j requires 0 <= j < |views| => views[j][j])
  }

  lemma {:induction false} SeenIsBest(views: seq<seq<Slot>>, i: nat, c: int, next: nat)
    requires 1 <= i <= |views| && forall j :: 0 <= j < |views| ==> |views[j]| == |views|
    ensures Seen(views, i, c, next) == Best(AsSeen(views), i, c, next)
    decreases i
  {
    if i > 1 {
      var x := views[i - 1][i - 1];
      if Runnable(x) && x.t.counter > c {
        SeenIsBest(views, i - 1, x.t.counter, i - 1);
      } else {
        SeenIsBest(views, i - 1, c, next);
      }
    }
  }

  /** Interrupts make tasks runnable and stop none; they come between looking at one task and the next. */
  ghost predicate OnlyWakes(views: seq<seq<Slot>>) {
    && |views| == NR_TASKS
    && (forall j :: 0 <= j < NR_TASKS ==> |views[j]| == NR_TASKS)
    && (forall a, b :: 0 <= a <= b < NR_TASKS ==> NoneStopped(views[b], views[a]))
  }

  ghost predicate NoneStopped(a: seq<Slot>, b: seq<Slot>) {
    |a| == |b| && forall j :: 0 <= j < |a| && Runnable(a[j]) ==> Runnable(b[j])
  }

  lemma StaysRunnable(views: seq<seq<Slot>>, a: nat, b: nat, j: nat)
    requires OnlyWakes(views) && a <= b < NR_TASKS && j < NR_TASKS && Runnable(views[b][j])
    ensures Runnable(views[a][j])
  {
    assert NoneStopped(views[b], views[a]);
  }

  /** What a scan finds although it is interrupted: a task that is runnable at its end, and no task that was runnable
      when it began had a larger counter when it was looked at. It finds none exactly if no task was runnable by the
      time it was looked at, whatever has been woken since. */
  lemma InterruptedScan(views: seq<seq<Slot>>, j: nat)
    requires OnlyWakes(views) && 1 <= j < NR_TASKS
    ensures var (m, k) := Seen(views, NR_TASKS, -1, 0);
            && k < NR_TASKS && (k == 0 <==> m == -1)
            && (k == 0 <==> forall i :: 1 <= i < NR_TASKS ==> !Runnable(views[i][i]))
            && (k != 0 ==> Runnable(views[1][k]) && Runnable(views[k][k]) && views[k][k].t.counter == m)
            && (Runnable(views[NR_TASKS - 1][j]) ==> k != 0 && views[j][j].t.counter <= m)
  {
    hide NoneStopped;
    SeenIsBest(views, NR_TASKS, -1, 0);
    BestIs(AsSeen(views), NR_TASKS, -1, 0);
    assert AsSeen(views)[j] == views[j][j];
    forall i | 1 <= i < NR_TASKS && Runnable(views[i][i]) ensures Seen(views, NR_TASKS, -1, 0).0 >= 0 {
      assert Runnable(AsSeen(views)[i]);
    }
    var k := Seen(views, NR_TASKS, -1, 0).1;
    if Runnable(views[NR_TASKS - 1][j]) { StaysRunnable(views, j, NR_TASKS - 1, j); }
    if k != 0 { StaysRunnable(views, 1, k, k); }
  }

  /** A task woken when the scan is past it is overlooked, even if no other can run. */
  lemma Overlooked(tasks: seq<Slot>, j: nat)
    requires Valid(tasks) && 1 < j < NR_TASKS && tasks[j].Used?
    requires forall i :: 1 <= i < NR_TASKS ==> !Runnable(tasks[i])
    ensures var woken := Set(tasks, j, tasks[j].t.(running := true));
            var views := seq(NR_TASKS, i => if i < j then woken else tasks);
            OnlyWakes(views) && Runnable(views[1][j]) && Seen(views, NR_TASKS, -1, 0).1 == 0
  {
    var woken := Set(tasks, j, tasks[j].t.(running := true));
    var views := seq(NR_TASKS, i => if i < j then woken else tasks);
    assert NoneStopped(tasks, tasks) && NoneStopped(tasks, woken) && NoneStopped(woken, woken);
    hide NoneStopped, Seen;
    InterruptedScan(views, j);
  }

  // ---- Runs ----

  datatype Sched = Sched(tasks: seq<Slot>, current: nat)

  /** Tick: do_timer, user telling whether it interrupted user mode. Sleep: the current task
      goes to sleep and calls schedule. Wake: a task becomes runnable. Resched: return from a
      system call with no counter left or no longer runnable, or any other call of schedule. */
  datatype Event = Tick(user: bool) | Sleep | Wake(i: nat) | Resched

  ghost predicate Inv(s: Sched) { Valid(s.tasks) && s.current < NR_TASKS && s.tasks[s.current].Used? }

  ghost predicate Enabled(s: Sched, e: Event) {
    match e
    case Tick(_) => true
    case Sleep => s.current != 0
    case Wake(i) => i < |s.tasks| && s.tasks[i].Used?
    case Resched => true
  }

  ghost function Reschedule(tasks: seq<Slot>): Sched
    requires Valid(tasks)
  {
    var (t, k) := Scheduled(tasks); Sched(t, k)
  }

  ghost function Apply(s: Sched, e: Event): Sched
    requires Inv(s) && Enabled(s, e)
  {
    var t := s.tasks[s.current].t;
    match e
    case Tick(user) =>
      var ticked := Set(s.tasks, s.current, t.(counter := if t.counter > 0 then t.counter - 1 else 0));
      if t.counter > 1 || !user then s.(tasks := ticked) else Reschedule(ticked)
    case Sleep => Reschedule(Set(s.tasks, s.current, t.(running := false)))
    case Wake(i) => s.(tasks := Set(s.tasks, i, s.tasks[i].t.(running := true)))
    case Resched => Reschedule(s.tasks)
  }

  lemma StepKeeps(s: Sched, e: Event)
    requires Inv(s) && Enabled(s, e)
    ensures Inv(Apply(s, e))
  {
    hide Scheduled;
    if !e.Wake? {
      var t := s.tasks[s.current].t;
      var ticked := Set(s.tasks, s.current, t.(counter := if t.counter > 0 then t.counter - 1 else 0));
      SchedulePicks(ticked);
      SchedulePicks(Set(s.tasks, s.current, t.(running := false)));
      SchedulePicks(s.tasks);
    }
  }

  // ---- Bounded waiting ----

  ghost function Counters(tasks: seq<Slot>): nat {
    if tasks == [] then 0 else (if tasks[0].Used? then tasks[0].t.counter else 0) + Counters(tasks[1..])
  }

  ghost function Priorities(tasks: seq<Slot>): nat {
    if tasks == [] then 0 else (if tasks[0].Used? then tasks[0].t.priority else 0) + Priorities(tasks[1..])
  }

  lemma {:induction false} SetSums(tasks: seq<Slot>, i: nat, t: Task)
    requires i < |tasks| && tasks[i].Used?
    ensures Counters(Set(tasks, i, t)) == Counters(tasks) - tasks[i].t.counter + t.counter
    ensures Priorities(Set(tasks, i, t)) == Priorities(tasks) - tasks[i].t.priority + t.priority
  {
    if i == 0 {
      assert Set(tasks, 0, t)[1..] == tasks[1..];
    } else {
      SetSums(tasks[1..], i - 1, t);
      assert Set(tasks, i, t)[1..] == Set(tasks[1..], i - 1, t);
    }
  }

  ghost predicate Bounded(tasks: seq<Slot>) {
    forall i :: 0 <= i < |tasks| && tasks[i].Used? ==> tasks[i].t.counter <= 2 * tasks[i].t.priority
  }

  lemma {:induction false} CountersBound(tasks: seq<Slot>)
    requires Bounded(tasks)
    ensures Counters(tasks) <= 2 * Priorities(tasks)
  {
    if tasks != [] { CountersBound(tasks[1..]); }
  }

  /** Recharging leaves priorities alone. */
  lemma {:induction false} SamePriorities(a: seq<Slot>, b: seq<Slot>)
    requires |a| == |b| && forall i :: 0 <= i < |a| ==>
               a[i].Used? == b[i].Used? && (a[i].Used? ==> a[i].t.priority == b[i].t.priority)
    ensures Priorities(a) == Priorities(b)
  {
    if a != [] { SamePriorities(a[1..], b[1..]); }
  }

  /** How many more ticks can pass before task q is picked. */
  ghost function Patience(s: Sched, q: nat): nat
    requires Inv(s) && q < NR_TASKS && s.tasks[q].Used?
  {
    Counters(s.tasks) + if s.tasks[q].t.counter == 0 then 2 * Priorities(s.tasks) else 0
  }

  lemma PatienceBound(s: Sched, q: nat)
    requires Inv(s) && q < NR_TASKS && s.tasks[q].Used?
    ensures Patience(s, q) <= 4 * Priorities(s.tasks)
  {
    CountersBound(s.tasks);
  }

  /** A call of schedule costs a runnable task no patience. */
  lemma ScheduleWait(tasks: seq<Slot>, q: nat)
    requires Valid(tasks) && 0 < q < NR_TASKS && Runnable(tasks[q])
    ensures Inv(Reschedule(tasks)) && Runnable(Reschedule(tasks).tasks[q])
    ensures Patience(Reschedule(tasks), q) <= Counters(tasks) + if tasks[q].t.counter == 0 then 2 * Priorities(tasks)
              else 0
    ensures Priorities(Reschedule(tasks).tasks) == Priorities(tasks)
  {
    SchedulePicks(tasks);
    RechargeNeeded(tasks);
    hide Scheduled, Best;
    var tasks' := Scheduled(tasks).0;
    if tasks' != tasks {
      RechargeKeeps(tasks);
      SamePriorities(tasks', tasks);
      CountersBound(tasks');
    }
  }

  ghost predicate PositiveTick(s: Sched, e: Event)
    requires Inv(s)
  {
    e.Tick? && s.tasks[s.current].t.counter > 0
  }

  /** No step costs a waiting task patience, and every tick that finds the current task with a
      positive counter uses some up. */
  lemma StepWait(s: Sched, e: Event, q: nat)
    requires Inv(s) && Enabled(s, e) && 0 < q < NR_TASKS && Runnable(s.tasks[q]) && s.current != q
    ensures Inv(Apply(s, e)) && Runnable(Apply(s, e).tasks[q])
    ensures Patience(Apply(s, e), q) + (if PositiveTick(s, e) then 1 else 0) <= Patience(s, q)
    ensures Priorities(Apply(s, e).tasks) == Priorities(s.tasks)
  {
    hide Scheduled;
    StepKeeps(s, e);
    var t := s.tasks[s.current].t;
    match e
    case Tick(user) =>
      var t' := t.(counter := if t.counter > 0 then t.counter - 1 else 0);
      SetSums(s.tasks, s.current, t');
      ScheduleWait(Set(s.tasks, s.current, t'), q);
    case Sleep =>
      SetSums(s.tasks, s.current, t.(running := false));
      ScheduleWait(Set(s.tasks, s.current, t.(running := false)), q);
    case Wake(i) => SetSums(s.tasks, i, s.tasks[i].t.(running := true));
    case Resched => ScheduleWait(s.tasks, q);
  }

  /** The run is possible, and task q, runnable at the start, is never the current task. */
  ghost predicate NeverPicked(s: Sched, es: seq<Event>, q: nat)
    requires Inv(s)
    decreases |es|
  {
    && s.current != q
    && (es == [] || (Enabled(s, es[0]) && (StepKeeps(s, es[0]); NeverPicked(Apply(s, es[0]), es[1..], q))))
  }

  ghost function PositiveTicks(s: Sched, es: seq<Event>, q: nat): nat
    requires Inv(s) && NeverPicked(s, es, q)
    decreases |es|
  {
    if es == [] then 0
    else
      StepKeeps(s, es[0]);
      (if PositiveTick(s, es[0]) then 1 else 0) + PositiveTicks(Apply(s, es[0]), es[1..], q)
  }

  lemma {:induction false} WaitCosts(s: Sched, es: seq<Event>, q: nat)
    requires Inv(s) && NeverPicked(s, es, q) && 0 < q < NR_TASKS && Runnable(s.tasks[q])
    ensures PositiveTicks(s, es, q) <= Patience(s, q)
    decreases |es|
  {
    hide Apply, Inv, Enabled, Patience, PositiveTick;
    if es != [] {
      Fields(s);
      StepWait(s, es[0], q);
      WaitCosts(Apply(s, es[0]), es[1..], q);
    }
  }

  lemma Fields(s: Sched)
    requires Inv(s)
    ensures Valid(s.tasks) && s.current < NR_TASKS && s.tasks[s.current].Used?
  {
  }

  /** A runnable task is picked before the others have used up four times the sum of all
      priorities in ticks. */
  lemma BoundedWaiting(s: Sched, es: seq<Event>, q: nat)
    requires Inv(s) && NeverPicked(s, es, q) && 0 < q < NR_TASKS && Runnable(s.tasks[q])
    ensures PositiveTicks(s, es, q) <= 4 * Priorities(s.tasks)
  {
    hide Inv;
    Fields(s);
    WaitCosts(s, es, q);
    PatienceBound(s, q);
  }

  // ---- The end of a time slice ----

  /** A tick in user mode that finds at most one unit left ends the slice: if any task can run, the current one then
      is runnable, has time left, and none has more. */
  lemma SliceEnds(s: Sched, i: nat)
    requires Inv(s) && s.tasks[s.current].t.counter <= 1 && 1 <= i < NR_TASKS && Runnable(s.tasks[i])
    ensures var s' := Apply(s, Tick(true));
            && Inv(s') && Runnable(s'.tasks[i]) && s'.current != 0
            && Runnable(s'.tasks[s'.current]) && s'.tasks[s'.current].t.counter > 0
            && s'.tasks[i].t.counter <= s'.tasks[s'.current].t.counter
  {
    hide Scheduled;
    SchedulePicks(Set(s.tasks, s.current, s.tasks[s.current].t.(counter := 0)));
  }

  /** Every other tick takes one unit from the current task, which keeps the processor. */
  lemma SliceGoesOn(s: Sched, user: bool)
    requires Inv(s) && (s.tasks[s.current].t.counter > 1 || !user)
    ensures var (s', t) := (Apply(s, Tick(user)), s.tasks[s.current].t);
            && s'.current == s.current && |s'.tasks| == |s.tasks|
            && (forall j :: 0 <= j < |s.tasks| && j != s.current ==> s'.tasks[j] == s.tasks[j])
            && s'.tasks[s.current] == Used(t.(counter := if t.counter > 0 then t.counter - 1 else 0))
  {
  }

  function UserTicks(es: seq<Event>): nat {
    if es == [] then 0 else UserTicks(es[1..]) + if es[0] == Tick(true) then 1 else 0
  }

  /** After a call of schedule the current task has time left, if any task can run. */
  lemma PickHasTime(tasks: seq<Slot>, q: nat)
    requires Valid(tasks) && 0 < q < NR_TASKS && Runnable(tasks[q])
    ensures var s := Reschedule(tasks);
            s.current < |s.tasks| && s.tasks[s.current].Used? && s.tasks[s.current].t.counter > 0
  {
    hide Scheduled;
    SchedulePicks(tasks);
  }

  function Spent(s: Sched): nat {
    if s.current < |s.tasks| && s.tasks[s.current].Used? && s.tasks[s.current].t.counter == 0 then 1 else 0
  }

  /** A tick in user mode finds the counter at 0 once at most between two that find it positive. */
  lemma StepSpends(s: Sched, e: Event, q: nat)
    requires Inv(s) && Enabled(s, e) && 0 < q < NR_TASKS && Runnable(s.tasks[q]) && s.current != q
    ensures Inv(Apply(s, e))
    ensures (if e == Tick(true) then 1 else 0) + 2 * Patience(Apply(s, e), q) + Spent(Apply(s, e))
            <= 2 * Patience(s, q) + Spent(s)
  {
    hide Scheduled, Patience;
    StepWait(s, e, q);
    var t := s.tasks[s.current].t;
    match e
    case Tick(user) =>
      PickHasTime(Set(s.tasks, s.current, t.(counter := if t.counter > 0 then t.counter - 1 else 0)), q);
    case Sleep => PickHasTime(Set(s.tasks, s.current, t.(running := false)), q);
    case Wake(_) =>
    case Resched => PickHasTime(s.tasks, q);
  }

  lemma {:induction false} TicksCost(s: Sched, es: seq<Event>, q: nat)
    requires Inv(s) && NeverPicked(s, es, q) && 0 < q < NR_TASKS && Runnable(s.tasks[q])
    ensures UserTicks(es) <= 2 * Patience(s, q) + Spent(s)
    decreases |es|
  {
    hide Apply, Inv, Enabled, Patience, Spent;
    if es != [] {
      Fields(s);
      StepWait(s, es[0], q);
      StepSpends(s, es[0], q);
      TicksCost(Apply(s, es[0]), es[1..], q);
    }
  }

  /** Whatever counters they find, there are at most eight times the sum of all priorities ticks in user mode, and one,
      before a runnable task is picked. */
  lemma BoundedTicks(s: Sched, es: seq<Event>, q: nat)
    requires Inv(s) && NeverPicked(s, es, q) && 0 < q < NR_TASKS && Runnable(s.tasks[q])
    ensures UserTicks(es) <= 8 * Priorities(s.tasks) + 1
  {
    hide Inv;
    Fields(s);
    TicksCost(s, es, q);
    PatienceBound(s, q);
  }

  // ---- Sleeping, waking, and any call of schedule ----

  ghost predicate CanRun(tasks: seq<Slot>, i: nat) { 1 <= i < |tasks| && tasks[i].Used? && tasks[i].t.running }

  /** The current task can run and no other has more units left; it is task 0 exactly if none can run. */
  ghost predicate BestRuns(s: Sched) {
    && |s.tasks| == NR_TASKS && s.current < NR_TASKS
    && (s.current == 0 <==> forall i :: 1 <= i < NR_TASKS ==> !CanRun(s.tasks, i))
    && (s.current != 0 ==> CanRun(s.tasks, s.current) && s.tasks[s.current].t.counter > 0)
    && (s.current != 0 ==> forall i :: 1 <= i < NR_TASKS && CanRun(s.tasks, i) ==>
                             s.tasks[i].t.counter <= s.tasks[s.current].t.counter)
  }

  lemma ReschedPicks(s: Sched)
    requires Inv(s)
    ensures Enabled(s, Resched)
    ensures var s' := Apply(s, Resched); BestRuns(s') && forall i :: 1 <= i < NR_TASKS ==>
              (CanRun(s'.tasks, i) <==> CanRun(s.tasks, i))
  {
    hide Scheduled;
    SchedulePicks(s.tasks);
    forall i | 1 <= i < NR_TASKS ensures CanRun(s.tasks, i) <==> Runnable(s.tasks[i]) {}
  }

  /** A task that goes to sleep gives up the processor to the best of the others. */
  lemma SleepYields(s: Sched)
    requires Inv(s) && s.current != 0
    ensures Enabled(s, Sleep)
    ensures var s' := Apply(s, Sleep); BestRuns(s') && s'.current != s.current && forall i :: 1 <= i < NR_TASKS ==>
              (CanRun(s'.tasks, i) <==> CanRun(s.tasks, i) && i != s.current)
  {
    hide Scheduled;
    var tasks := Set(s.tasks, s.current, s.tasks[s.current].t.(running := false));
    SchedulePicks(tasks);
    forall i | 1 <= i < NR_TASKS ensures CanRun(tasks, i) <==> Runnable(tasks[i]) {}
  }

  /** wake_up makes one task runnable and nothing else, and that task is picked within so many ticks. */
  lemma WokenIsPicked(s: Sched, i: nat, es: seq<Event>)
    requires Inv(s) && 0 < i < NR_TASKS && s.tasks[i].Used?
    ensures Enabled(s, Wake(i)) && Inv(Apply(s, Wake(i)))
    ensures Apply(s, Wake(i)) == Sched(s.tasks[i := Used(s.tasks[i].t.(running := true))], s.current)
    ensures NeverPicked(Apply(s, Wake(i)), es, i) ==> UserTicks(es) <= 8 * Priorities(s.tasks) + 1
  {
    StepKeeps(s, Wake(i));
    SetSums(s.tasks, i, s.tasks[i].t.(running := true));
    if NeverPicked(Apply(s, Wake(i)), es, i) { BoundedTicks(Apply(s, Wake(i)), es, i); }
  }

  // ---- The code ----

  class Scheduler {
    const task: array<Slot>
    var current: nat

    ghost predicate Ok()
      reads this, task
    {
      Inv(Sched(task[..], current))
    }

    /** The loop of schedule: scan for the best, recharge everyone if it has no counter left, scan again. */
    method Schedule()
      requires Valid(task[..])
      modifies this, task
      ensures Ok() && Sched(task[..], current) == Reschedule(old(task[..]))
    {
      hide Best, Recharge, Scheduled;
      ghost var tasks := task[..];
      SchedulePicks(tasks);
      ScheduleIs(tasks);
      var c, next := Scan();
      ghost var rounds := 0;
      while c == 0
        modifies task
        invariant rounds == 0 ==> task[..] == tasks && (c, next) == Best(tasks, NR_TASKS, -1, 0)
        invariant rounds != 0 ==> (task[..], next) == Scheduled(tasks) && c > 0 && Valid(task[..])
        decreases 1 - rounds
      {
        RechargeAll();
        RechargeKeeps(tasks);
        c, next := Scan();
        OneRound(tasks);
        rounds := 1;
      }
      current := next;
    }

    /** while (--i): from the last task down to task 1. */
    method Scan() returns (c: int, next: nat)
      requires Valid(task[..])
      ensures (c, next) == Best(task[..], NR_TASKS, -1, 0)
    {
      c, next := -1, 0;
      var i := NR_TASKS - 1;
      while i > 0
        invariant 0 <= i < NR_TASKS
        invariant Best(task[..], NR_TASKS, -1, 0) == Best(task[..], i + 1, c, next)
      {
        if task[i].Used? && task[i].t.running && task[i].t.counter > c {
          c, next := task[i].t.counter, i;
        }
        i := i - 1;
      }
    }

    method RechargeAll()
      requires Valid(task[..])
      modifies task
      ensures task[..] == Recharge(old(task[..]))
    {
      var i := NR_TASKS - 1;
      while i > 0
        invariant 0 <= i < NR_TASKS
        invariant forall j :: 0 <= j <= i ==> task[j] == old(task[j])
        invariant forall j :: i < j < NR_TASKS ==> task[j] == Recharged(old(task[j]))
      {
        if task[i].Used? { task[i] := Used(task[i].t.(counter := task[i].t.counter / 2 + task[i].t.priority)); }
        i := i - 1;
      }
      assert task[..] == Recharge(old(task[..]));
    }

    /** The scheduling part of do_timer. */
    method DoTimer(cpl: bool)
      requires Ok()
      modifies this, task
      ensures Ok() && Sched(task[..], current) == Apply(old(Sched(task[..], current)), Tick(cpl))
    {
      hide Scheduled;
      ghost var s := Sched(task[..], current);
      StepKeeps(s, Tick(cpl));
      var t := task[current].t;
      if t.counter > 1 {
        task[current] := Used(t.(counter := t.counter - 1));
        assert task[..] == Set(s.tasks, current, t.(counter := t.counter - 1));
        return;
      }
      task[current] := Used(t.(counter := 0));
      assert task[..] == Set(s.tasks, current, t.(counter := 0));
      if !cpl { return; }
      Schedule();
    }
  }

  lemma ScheduleIs(tasks: seq<Slot>)
    requires Valid(tasks)
    ensures var (c, next) := Best(tasks, NR_TASKS, -1, 0);
            Scheduled(tasks) == if c != 0 then (tasks, next)
                else (Recharge(tasks), Best(Recharge(tasks), NR_TASKS, -1, 0).1)
  {
  }

  /** After one round the scan finds a counter that is not 0. */
  lemma OneRound(tasks: seq<Slot>)
    requires Valid(tasks) && Best(tasks, NR_TASKS, -1, 0).0 == 0
    ensures Best(Recharge(tasks), NR_TASKS, -1, 0).0 > 0
  {
    BestIs(tasks, NR_TASKS, -1, 0);
    RechargeKeeps(tasks);
    BestIs(Recharge(tasks), NR_TASKS, -1, 0);
  }
}

/** The process table (linux-0.11/kernel/fork.c, exit.c): process numbers are never
    shared, every process has a father who can wait for it, and looking for a new
    number always ends. */
module Processes {

  import opened Basics

  const PID_LIMIT := 0x8000_0000     // the first number a long cannot hold

  /** Exiting: do_exit has given the children away and may sleep before it is done. */
  datatype State = Running | Exiting | Zombie

  datatype Task = Task(pid: nat, father: nat, pgrp: nat, state: State, code: int)

  datatype Slot = Free | Used(t: Task)

  datatype Table = Table(task: seq<Slot>, lastPid: nat)

  // ---- find_empty_process ----

  /** ++last_pid, with the wrap-around of a signed long. */
  function NextPid(p: nat): nat { if p + 1 >= PID_LIMIT then 1 else p + 1 }

  predicate InUse(task: seq<Slot>, pid: nat) { exists i :: 0 <= i < |task| && task[i].Used? && task[i].t.pid == pid }

  /** The number after p, j tries later; the numbers wrap at most once. */
  function Candidate(p: nat, j: nat): nat { if p + j < PID_LIMIT then p + j else p + j - PID_LIMIT + 1 }

  ghost function Pids(task: seq<Slot>): (s: set<nat>)
    ensures |s| <= |task|
    ensures forall p :: p in s <==> InUse(task, p)
  {
    if task == [] then {}
    else
      var rest := Pids(task[1..]);
      PidsSplit(task);
      if task[0].Used? then rest + {task[0].t.pid} else rest
  }

  lemma PidsSplit(task: seq<Slot>)
    requires task != []
    ensures forall p :: InUse(task, p) <==> InUse(task[1..], p) || (task[0].Used? && task[0].t.pid == p)
  {
    forall p | InUse(task, p) ensures InUse(task[1..], p) || (task[0].Used? && task[0].t.pid == p) {
      var i :| 0 <= i < |task| && task[i].Used? && task[i].t.pid == p;
      if i > 0 { assert task[1..][i - 1] == task[i]; }
    }
    forall p | InUse(task[1..], p) ensures InUse(task, p) {
      var i :| 0 <= i < |task| - 1 && task[1..][i].Used? && task[1..][i].t.pid == p;
      assert task[i + 1] == task[1..][i];
    }
  }

  /** The number find_empty_process settles on. */
  ghost function NextUnused(task: seq<Slot>, p: nat, tries: nat): nat
    decreases tries
  {
    if tries == 0 || !InUse(task, NextPid(p)) then NextPid(p) else NextUnused(task, NextPid(p), tries - 1)
  }

  /** The numbers before the k-th. */
  ghost function Tried(last: nat, k: nat): set<nat> {
    if k <= 1 then {} else Tried(last, k - 1) + {Candidate(last, k - 1)}
  }

  ghost predicate AllUsed(task: seq<Slot>, last: nat, k: nat) {
    forall j: nat :: 1 <= j < k ==> InUse(task, Candidate(last, j))
  }

  /** The numbers tried are different. */
  lemma {:induction false} TriedCard(last: nat, k: nat, far: nat)
    requires last < PID_LIMIT && 1 <= k <= far <= NR_TASKS + 2
    ensures |Tried(last, k)| == k - 1 && (k <= far ==> Candidate(last, far) !in Tried(last, k))
  {
    if k > 1 {
      TriedCard(last, k - 1, k - 1);
      TriedCard(last, k - 1, far);
    }
  }

  lemma {:induction false} TriedUsed(task: seq<Slot>, last: nat, k: nat)
    requires AllUsed(task, last, k)
    ensures Tried(last, k) <= Pids(task)
  {
    if k > 1 { TriedUsed(task, last, k - 1); }
  }

  /** There are only so many numbers in use. */
  lemma FewTries(task: seq<Slot>, last: nat, k: nat)
    requires |task| == NR_TASKS && last < PID_LIMIT && 1 <= k <= NR_TASKS + 2 && AllUsed(task, last, k)
    ensures k <= NR_TASKS + 1
  {
    TriedCard(last, k, k);
    TriedUsed(task, last, k);
    SubsetSize(Tried(last, k), Pids(task));
  }

  /** The search of find_empty_process: it ends, with the first number after the last one that nobody has. */
  method FindPid(task: seq<Slot>, last: nat) returns (pid: nat)
    requires |task| == NR_TASKS && last < PID_LIMIT
    ensures 0 < pid < PID_LIMIT && !InUse(task, pid)
    ensures exists j: nat :: 1 <= j <= NR_TASKS + 1 && pid == Candidate(last, j) && AllUsed(task, last, j)
    ensures pid == NextUnused(task, last, NR_TASKS)
  {
    hide InUse;
    pid := NextPid(last);
    ghost var k := 1;
    var used := IsUsed(task, pid);
    while used
      invariant 1 <= k <= NR_TASKS + 1 && pid == Candidate(last, k) && used == InUse(task, pid)
      invariant AllUsed(task, last, k)
      invariant NextUnused(task, last, NR_TASKS) == if used && k <= NR_TASKS then NextUnused(task, pid, NR_TASKS - k)
                  else pid
      decreases NR_TASKS + 1 - k
    {
      assert AllUsed(task, last, k + 1);
      FewTries(task, last, k + 1);
      pid := NextPid(pid);
      k := k + 1;
      used := IsUsed(task, pid);
    }
  }

  /** The loop over the table for one number. */
  method IsUsed(task: seq<Slot>, pid: nat) returns (used: bool)
    ensures used == InUse(task, pid)
  {
    for i := 0 to |task|
      invariant forall j :: 0 <= j < i ==> !(task[j].Used? && task[j].t.pid == pid)
    {
      if task[i].Used? && task[i].t.pid == pid { return true; }
    }
    used := false;
  }

  /** The first free slot from the i-th on. */
  function FirstFree(task: seq<Slot>, i: nat): (k: nat)
    requires i <= |task|
    ensures i <= k <= |task| && (k < |task| ==> task[k].Free?) && forall j :: i <= j < k ==> task[j].Used?
    decreases |task| - i
  {
    if i == |task| || task[i].Free? then i else FirstFree(task, i + 1)
  }

  // ---- fork, exit and wait ----

  const EAGAIN := 11

  /** fork by the task in slot c; memory: whether there is memory for it. The new table, and what
      the caller gets. */
  ghost function Forked(tb: Table, c: nat, memory: bool): (r: (Table, int))
    requires |tb.task| == NR_TASKS && c < NR_TASKS && tb.task[c].Used?
  {
    var pid := NextUnused(tb.task, tb.lastPid, NR_TASKS);
    var nr := FirstFree(tb.task, 1);
    if nr == NR_TASKS || !memory then (tb.(lastPid := pid), -EAGAIN)
    else
      var t := tb.task[c].t;
      (Table(tb.task[nr := Used(t.(pid := pid, father := t.pid, state := Running))], pid), pid)
  }

  function Adopted(s: Slot, pid: nat): Slot {
    if s.Used? && s.t.father == pid then Used(s.t.(father := 1)) else s
  }

  /** do_exit, until it may sleep: the children go to process 1. */
  ghost function ExitBegun(tb: Table, c: nat): (r: Table)
    requires |tb.task| == NR_TASKS && c < NR_TASKS && tb.task[c].Used?
    ensures |r.task| == NR_TASKS
  {
    var pid := tb.task[c].t.pid;
    var given := seq(NR_TASKS, i requires 0 <= i < NR_TASKS => Adopted(tb.task[i], pid));
    tb.(task := given[c := Used(Adopted(tb.task[c], pid).t.(state := Exiting))])
  }

  /** The rest of do_exit. tell_father: a task without a father releases itself. */
  ghost function ExitEnded(tb: Table, c: nat, code: int): Table
    requires |tb.task| == NR_TASKS && c < NR_TASKS && tb.task[c].Used?
  {
    var t := tb.task[c].t;
    if t.father != 0 && InUse(tb.task, t.father) then tb.(task := tb.task[c := Used(t.(state := Zombie, code := code))])
    else tb.(task := tb.task[c := Free])
  }

  /** Whether waitpid(pid) by c looks at slot i. */
  predicate Selected(task: seq<Slot>, c: nat, pid: int, i: nat)
    requires c < |task| && task[c].Used? && i < |task|
  {
    && task[i].Used? && i != c && task[i].t.father == task[c].t.pid
    && (if pid > 0 then task[i].t.pid == pid
        else if pid == 0 then task[i].t.pgrp == task[c].t.pgrp
        else pid == -1 || task[i].t.pgrp == -pid)
  }

  /** Sleep: there is a child to wait for; NotYet: there is, but the caller does not want to sleep. */
  datatype WaitResult = Reap(slot: nat) | Sleep | NotYet | NoChild

  /** The loop of sys_waitpid over the slots below i; flag: a child has been seen. */
  function WaitScan(task: seq<Slot>, c: nat, pid: int, i: nat, flag: bool): (r: WaitResult)
    requires c < |task| && task[c].Used? && 1 <= i <= |task|
    ensures !r.NotYet? && (r.Reap? ==> 1 <= r.slot < i)
    decreases i
  {
    if i == 1 then (if flag then Sleep else NoChild)
    else if !Selected(task, c, pid, i - 1) then WaitScan(task, c, pid, i - 1, flag)
    else if task[i - 1].t.state == Zombie then Reap(i - 1)
    else WaitScan(task, c, pid, i - 1, true)
  }

  /** waitpid takes the last zombie it may take; it sleeps exactly if it has a child to wait for but no
      zombie, and fails exactly if it has no such child. */
  lemma {:induction false} WaitIs(task: seq<Slot>, c: nat, pid: int, i: nat, flag: bool)
    requires c < |task| && task[c].Used? && 1 <= i <= |task|
    ensures match WaitScan(task, c, pid, i, flag)
      case Reap(z) => 1 <= z < i && Selected(task, c, pid, z) && task[z].t.state == Zombie
                      && forall j :: z < j < i && Selected(task, c, pid, j) ==> task[j].t.state != Zombie
      case Sleep => (forall j :: 1 <= j < i && Selected(task, c, pid, j) ==> task[j].t.state != Zombie)
                    && (flag || exists j :: 1 <= j < i && Selected(task, c, pid, j))
      case NoChild => !flag && forall j :: 1 <= j < i ==> !Selected(task, c, pid, j)
    decreases i
  {
    if i > 1 {
      if !Selected(task, c, pid, i - 1) {
        WaitIs(task, c, pid, i - 1, flag);
      } else if task[i - 1].t.state != Zombie {
        WaitIs(task, c, pid, i - 1, true);
      }
    }
  }

  /** A child of the process in slot c, in slot i. */
  predicate IsChild(task: seq<Slot>, c: nat, i: nat)
    requires c < |task| && task[c].Used? && i < |task|
  {
    0 < i && i != c && task[i].Used? && task[i].t.father == task[c].t.pid
  }

  /** wait(), which is waitpid(-1): any child will do. */
  lemma WaitAny(task: seq<Slot>, c: nat)
    requires 1 <= |task| && c < |task| && task[c].Used?
    ensures var r := WaitScan(task, c, -1, |task|, false);
            && (r.Reap? <==> exists i :: 0 <= i < |task| && IsChild(task, c, i) && task[i].t.state == Zombie)
            && (r.NoChild? <==> forall i :: 0 <= i < |task| ==> !IsChild(task, c, i))
            && (r.Reap? ==> IsChild(task, c, r.slot) && task[r.slot].t.state == Zombie)
  {
    WaitIs(task, c, -1, |task|, false);
    forall i | 0 <= i < |task| ensures IsChild(task, c, i) <==> 0 < i && Selected(task, c, -1, i) {}
  }

  /** waitpid(pid) for the number of a process: that child only. */
  lemma WaitOne(task: seq<Slot>, c: nat, pid: nat)
    requires 1 <= |task| && c < |task| && task[c].Used? && pid > 0
    ensures var r := WaitScan(task, c, pid, |task|, false);
            && (r.Reap? <==> exists i :: && 0 <= i < |task| && IsChild(task, c, i)
                                         && task[i].t.pid == pid && task[i].t.state == Zombie)
            && (r.NoChild? <==> forall i :: 0 <= i < |task| && IsChild(task, c, i) ==> task[i].t.pid != pid)
            && (r.Reap? ==> IsChild(task, c, r.slot) && task[r.slot].t.pid == pid && task[r.slot].t.state == Zombie)
  {
    WaitIs(task, c, pid, |task|, false);
    forall i | 0 <= i < |task|
      ensures IsChild(task, c, i) && task[i].t.pid == pid <==> 0 < i && Selected(task, c, pid, i) {}
  }

  /** waitpid(0) and waitpid(-group): the children of a group, for 0 the caller's. */
  lemma WaitGroup(task: seq<Slot>, c: nat, pid: int, group: nat)
    requires 1 <= |task| && c < |task| && task[c].Used?
    requires (pid == 0 && group == task[c].t.pgrp) || (pid < -1 && group == -pid)
    ensures var r := WaitScan(task, c, pid, |task|, false);
            && (r.Reap? <==> exists i :: && 0 <= i < |task| && IsChild(task, c, i)
                                         && task[i].t.pgrp == group && task[i].t.state == Zombie)
            && (r.NoChild? <==> forall i :: 0 <= i < |task| && IsChild(task, c, i) ==> task[i].t.pgrp != group)
            && (r.Reap? ==> IsChild(task, c, r.slot) && task[r.slot].t.pgrp == group && task[r.slot].t.state == Zombie)
  {
    WaitIs(task, c, pid, |task|, false);
    forall i | 0 <= i < |task|
      ensures IsChild(task, c, i) && task[i].t.pgrp == group <==> 0 < i && Selected(task, c, pid, i) {}
  }

  // ---- Over whole runs ----

  /** The slot of the process with a number. */
  ghost predicate Is(task: seq<Slot>, k: nat, pid: nat) { k < |task| && task[k].Used? && task[k].t.pid == pid }

  /** A running process in some slot has this number. */
  ghost predicate Alive(task: seq<Slot>, pid: nat) { exists k: nat :: Is(task, k, pid) && task[k].t.state == Running }

  ghost predicate Distinct(task: seq<Slot>) {
    forall i, j :: 0 <= i < j < |task| && task[i].Used? && task[j].Used? ==> task[i].t.pid != task[j].t.pid
  }

  ghost predicate Inv(tb: Table) {
    && |tb.task| == NR_TASKS && tb.lastPid < PID_LIMIT
    && Is(tb.task, 0, 0) && tb.task[0].t.state == Running
    && Is(tb.task, 1, 1) && tb.task[1].t.state == Running && tb.task[1].t.father == 0
    && Distinct(tb.task)
    && (forall i :: 1 <= i < NR_TASKS && tb.task[i].Used? ==>
          Alive(tb.task, tb.task[i].t.father) && tb.task[i].t.father != tb.task[i].t.pid)
    && (forall i :: 2 <= i < NR_TASKS && tb.task[i].Used? ==> tb.task[i].t.father != 0)
  }

  datatype Event = Forks(c: nat, memory: bool) | BeginsExit(c: nat) | EndsExit(c: nat, code: int)
      | Waits(c: nat, pid: int)

  /** Task 0 only idles, and init never exits. */
  ghost predicate Enabled(tb: Table, e: Event)
    requires |tb.task| == NR_TASKS
  {
    match e
    case Forks(c, _) => 0 < c < NR_TASKS && tb.task[c].Used? && tb.task[c].t.state == Running
    case BeginsExit(c) => 1 < c < NR_TASKS && tb.task[c].Used? && tb.task[c].t.state == Running
    case EndsExit(c, _) => 1 < c < NR_TASKS && tb.task[c].Used? && tb.task[c].t.state == Exiting
    case Waits(c, pid) => 0 < c < NR_TASKS && tb.task[c].Used? && tb.task[c].t.state == Running
  }

  ghost function Apply(tb: Table, e: Event): (r: Table)
    requires |tb.task| == NR_TASKS && Enabled(tb, e)
    ensures |r.task| == NR_TASKS
  {
    match e
    case Forks(c, memory) => Forked(tb, c, memory).0
    case BeginsExit(c) => ExitBegun(tb, c)
    case EndsExit(c, code) => ExitEnded(tb, c, code)
    case Waits(c, pid) => (match WaitScan(tb.task, c, pid, NR_TASKS, false)
                           case Reap(z) => tb.(task := tb.task[z := Free])
                           case _ => tb)
  }

  /** The number of a new process is positive and nobody's. */
  lemma NewPid(tb: Table)
    requires Inv(tb)
    ensures var pid := NextUnused(tb.task, tb.lastPid, NR_TASKS); 0 < pid < PID_LIMIT && !InUse(tb.task, pid)
  {
    NextUnusedIs(tb.task, tb.lastPid, tb.lastPid, 1, NR_TASKS);
  }

  lemma {:induction false} NextUnusedIs(task: seq<Slot>, last: nat, p: nat, k: nat, tries: nat)
    requires |task| == NR_TASKS && last < PID_LIMIT && 1 <= k && k + tries == NR_TASKS + 1
    requires NextPid(p) == Candidate(last, k) && AllUsed(task, last, k)
    ensures var pid := NextUnused(task, p, tries); 0 < pid < PID_LIMIT && !InUse(task, pid)
    decreases tries
  {
    hide InUse;
    if InUse(task, NextPid(p)) {
      assert AllUsed(task, last, k + 1);
      FewTries(task, last, k + 1);
      NextUnusedIs(task, last, NextPid(p), k + 1, tries - 1);
    }
  }

  /** A new entry in a free slot: whoever was alive is, and numbers stay distinct. */
  lemma AddedAlive(task: seq<Slot>, nr: nat, t: Task, p: nat)
    requires nr < |task| && task[nr].Free? && Alive(task, p)
    ensures Alive(task[nr := Used(t)], p)
  {
    var k: nat :| Is(task, k, p) && task[k].t.state == Running;
    assert Is(task[nr := Used(t)], k, p);
  }

  lemma AddedDistinct(task: seq<Slot>, nr: nat, t: Task)
    requires nr < |task| && task[nr].Free? && Distinct(task) && !InUse(task, t.pid)
    ensures Distinct(task[nr := Used(t)])
  {
  }

  lemma ForkKeeps(tb: Table, c: nat, memory: bool)
    requires Inv(tb) && Enabled(tb, Forks(c, memory))
    ensures Inv(Forked(tb, c, memory).0)
  {
    hide Distinct, Alive;
    NewPid(tb);
    var tb' := Forked(tb, c, memory).0;
    var nr := FirstFree(tb.task, 1);
    if nr < NR_TASKS && memory {
      var t := tb'.task[nr].t;
      AddedDistinct(tb.task, nr, t);
      IsAlive(tb.task, c);
      CallerPid(tb, c);
      forall i | 1 <= i < NR_TASKS && tb'.task[i].Used?
        ensures Alive(tb'.task, tb'.task[i].t.father) && tb'.task[i].t.father != tb'.task[i].t.pid
      {
        AddedAlive(tb.task, nr, t, tb'.task[i].t.father);
      }
    }
  }

  lemma CallerPid(tb: Table, c: nat)
    requires Inv(tb) && 0 < c < NR_TASKS && tb.task[c].Used?
    ensures tb.task[c].t.pid != 0 && InUse(tb.task, tb.task[c].t.pid)
  {
    hide Alive;
  }

  lemma IsAlive(task: seq<Slot>, c: nat)
    requires c < |task| && task[c].Used? && task[c].t.state == Running
    ensures Alive(task, task[c].t.pid)
  {
    assert Is(task, c, task[c].t.pid);
  }

  /** fork needs a free slot and memory. The child is a copy of its caller but for its number, its father and its
      state, and no other slot changes; the caller gets the number. A fork that fails has used a number up as well. */
  lemma ForkIs(tb: Table, c: nat, memory: bool)
    requires Inv(tb) && c < NR_TASKS && tb.task[c].Used?
    ensures var (tb', r) := Forked(tb, c, memory);
            && 0 < tb'.lastPid < PID_LIMIT && !InUse(tb.task, tb'.lastPid)
            && if memory && exists i :: 1 <= i < NR_TASKS && tb.task[i].Free?
            then
              && r == tb'.lastPid
              && var t := tb.task[c].t;
                 exists i :: && 1 <= i < NR_TASKS && tb.task[i].Free?
                             && tb'.task == tb.task[i := Used(Task(r, t.pid, t.pgrp, Running, t.code))]
            else r == -EAGAIN && tb'.task == tb.task
  {
    NewPid(tb);
    var nr := FirstFree(tb.task, 1);
    if nr < NR_TASKS { assert tb.task[nr].Free?; }
  }

  /** Slot by slot: only fathers and c's state change. */
  lemma BeginExitSlot(tb: Table, c: nat, i: nat)
    requires Inv(tb) && Enabled(tb, BeginsExit(c)) && i < NR_TASKS
    ensures var (t, t') := (tb.task[i], ExitBegun(tb, c).task[i]);
            && t'.Used? == t.Used?
            && (t.Used? ==> t'.t.pid == t.t.pid && t'.t.state == (if i == c then Exiting else t.t.state)
                            && t'.t.father == (if t.t.father == tb.task[c].t.pid then 1 else t.t.father)
                            && t'.t.pgrp == t.t.pgrp && t'.t.code == t.t.code)
  {
    hide Distinct, Alive;
  }

  lemma StillAlive(tb: Table, c: nat, p: nat)
    requires Inv(tb) && Enabled(tb, BeginsExit(c)) && Alive(tb.task, p) && p != tb.task[c].t.pid
    ensures Alive(ExitBegun(tb, c).task, p)
  {
    hide Inv, ExitBegun;
    var k: nat :| Is(tb.task, k, p) && tb.task[k].t.state == Running;
    TableSize(tb);
    BeginExitSlot(tb, c, k);
    AliveAt(ExitBegun(tb, c).task, k, p);
  }

  lemma AliveAt(task: seq<Slot>, k: nat, p: nat)
    requires Is(task, k, p) && task[k].t.state == Running
    ensures Alive(task, p)
  {
  }

  lemma TableSize(tb: Table)
    requires Inv(tb)
    ensures |tb.task| == NR_TASKS && Alive(tb.task, 1) && Alive(tb.task, 0) && Is(tb.task, 0, 0) && Is(tb.task, 1, 1)
    ensures Distinct(tb.task) && tb.task[1].t.father == 0
    ensures forall i: nat :: 1 <= i < NR_TASKS && tb.task[i].Used? ==>
              Alive(tb.task, tb.task[i].t.father) && tb.task[i].t.father != tb.task[i].t.pid
  {
    hide Distinct;
  }

  lemma BeginExitKeeps(tb: Table, c: nat)
    requires Inv(tb) && Enabled(tb, BeginsExit(c))
    ensures Inv(ExitBegun(tb, c))
  {
    hide ExitBegun, Alive;
    var tb' := ExitBegun(tb, c);
    TableSize(tb);
    forall i: nat | i < NR_TASKS ensures SlotLike(tb.task[i], tb'.task[i], i == c, tb.task[c].t.pid) {
      BeginExitSlot(tb, c, i);
    }
    assert tb.task[c].t.pid != 1 && tb.task[c].t.pid != 0;
    StillAlive(tb, c, 1);
    forall i: nat | 1 <= i < NR_TASKS && tb'.task[i].Used?
      ensures Alive(tb'.task, tb'.task[i].t.father) && tb'.task[i].t.father != tb'.task[i].t.pid
    {
      assert SlotLike(tb.task[i], tb'.task[i], i == c, tb.task[c].t.pid);
      if tb'.task[i].t.father != 1 { StillAlive(tb, c, tb.task[i].t.father); }
    }
    BeginExitRest(tb, c);
  }

  ghost predicate SlotLike(s: Slot, s': Slot, exiting: bool, pid: nat) {
    && s'.Used? == s.Used?
    && (s.Used? ==> s'.t.pid == s.t.pid && s'.t.state == (if exiting then Exiting else s.t.state)
                    && s'.t.father == if s.t.father == pid then 1 else s.t.father)
  }

  lemma BeginExitRest(tb: Table, c: nat)
    requires Inv(tb) && Enabled(tb, BeginsExit(c))
    ensures var tb' := ExitBegun(tb, c);
            && |tb'.task| == NR_TASKS && tb'.lastPid == tb.lastPid && Distinct(tb'.task)
            && Is(tb'.task, 0, 0) && tb'.task[0].t.state == Running
            && Is(tb'.task, 1, 1) && tb'.task[1].t.state == Running && tb'.task[1].t.father == 0
            && (forall i :: 2 <= i < NR_TASKS && tb'.task[i].Used? ==> tb'.task[i].t.father != 0)
  {
    hide Alive;
    var tb' := ExitBegun(tb, c);
    forall i, j | 0 <= i < j < NR_TASKS && tb'.task[i].Used? && tb'.task[j].Used?
      ensures tb'.task[i].t.pid != tb'.task[j].t.pid
    {
    }
  }

  /** The father of an exiting process is there to be told. */
  lemma EndExitKeeps(tb: Table, c: nat, code: int)
    requires Inv(tb) && Enabled(tb, EndsExit(c, code))
    ensures Inv(ExitEnded(tb, c, code)) && ExitEnded(tb, c, code).task[c].Used?
    ensures ExitEnded(tb, c, code).task[c].t.state == Zombie
  {
    var tb' := ExitEnded(tb, c, code);
    var f: nat :| Is(tb.task, f, tb.task[c].t.father) && tb.task[f].t.state == Running;
    assert InUse(tb.task, tb.task[c].t.father);
    forall p | Alive(tb.task, p) ensures Alive(tb'.task, p) {
      var k: nat :| Is(tb.task, k, p) && tb.task[k].t.state == Running;
      assert Is(tb'.task, k, p);
    }
  }

  /** A process whose father is not to be found releases itself, and is nobody's zombie. */
  lemma FatherGone(tb: Table, c: nat, code: int)
    requires |tb.task| == NR_TASKS && c < NR_TASKS && tb.task[c].Used?
    requires forall i :: 0 <= i < NR_TASKS && tb.task[i].Used? && tb.task[c].t.father != 0 ==>
               tb.task[i].t.pid != tb.task[c].t.father
    ensures ExitEnded(tb, c, code).task == tb.task[c := Free]
  {
  }

  lemma WaitKeeps(tb: Table, c: nat, pid: int)
    requires Inv(tb) && Enabled(tb, Waits(c, pid))
    ensures Inv(Apply(tb, Waits(c, pid)))
  {
    hide Inv, WaitScan, Selected;
    InvSize(tb);
    WaitIs(tb.task, c, pid, NR_TASKS, false);
    match WaitScan(tb.task, c, pid, NR_TASKS, false)
    case Reap(z) => ReapKeeps(tb, z);
    case _ =>
  }

  /** A zombie is nobody's running father. */
  lemma ReapKeeps(tb: Table, z: nat)
    requires Inv(tb) && z < NR_TASKS && tb.task[z].Used? && tb.task[z].t.state == Zombie
    ensures Inv(tb.(task := tb.task[z := Free]))
  {
    hide Alive, Distinct;
    var tb' := tb.(task := tb.task[z := Free]);
    forall i | 1 <= i < NR_TASKS && tb'.task[i].Used? ensures Alive(tb'.task, tb'.task[i].t.father) {
      OthersAlive(tb.task, z, tb.task[i].t.father);
    }
    OthersDistinct(tb.task, z);
  }

  lemma OthersAlive(task: seq<Slot>, z: nat, p: nat)
    requires z < |task| && task[z].Used? && task[z].t.state == Zombie && Alive(task, p)
    ensures Alive(task[z := Free], p)
  {
    var k: nat :| Is(task, k, p) && task[k].t.state == Running;
    assert Is(task[z := Free], k, p);
  }

  lemma OthersDistinct(task: seq<Slot>, z: nat)
    requires z < |task| && Distinct(task)
    ensures Distinct(task[z := Free])
  {
  }

  lemma StepKeeps(tb: Table, e: Event)
    requires Inv(tb) && Enabled(tb, e)
    ensures Inv(Apply(tb, e))
  {
    hide Inv;
    match e
    case Forks(c, memory) => ForkKeeps(tb, c, memory);
    case BeginsExit(c) => BeginExitKeeps(tb, c);
    case EndsExit(c, code) => EndExitKeeps(tb, c, code);
    case Waits(c, pid) => WaitKeeps(tb, c, pid);
  }

  ghost predicate Possible(tb: Table, es: seq<Event>)
    requires |tb.task| == NR_TASKS
    decreases |es|
  {
    es == [] || (Enabled(tb, es[0]) && Possible(Apply(tb, es[0]), es[1..]))
  }

  ghost function Final(tb: Table, es: seq<Event>): Table
    requires |tb.task| == NR_TASKS && Possible(tb, es)
    decreases |es|
  {
    if es == [] then tb else Final(Apply(tb, es[0]), es[1..])
  }

  lemma InvSize(tb: Table)
    requires Inv(tb)
    ensures |tb.task| == NR_TASKS
  {
  }

  lemma {:induction false} RunKeeps(tb: Table, es: seq<Event>)
    requires Inv(tb) && Possible(tb, es)
    ensures Inv(Final(tb, es))
    decreases |es|
  {
    hide Inv, Apply, Enabled;
    InvSize(tb);
    if es != [] {
      StepKeeps(tb, es[0]);
      RunKeeps(Apply(tb, es[0]), es[1..]);
    }
  }

  /** Every zombie can be reaped: its father runs, waiting for its number finds it, and waiting for any child finds
      a zombie. */
  lemma Reapable(tb: Table, z: nat) returns (f: nat)
    requires Inv(tb) && z < NR_TASKS && tb.task[z].Used? && tb.task[z].t.state == Zombie
    ensures f < NR_TASKS && tb.task[f].Used? && tb.task[f].t.state == Running && tb.task[f].t.pid == tb.task[z].t.father
    ensures WaitScan(tb.task, f, tb.task[z].t.pid, NR_TASKS, false) == Reap(z)
    ensures WaitScan(tb.task, f, -1, NR_TASKS, false).Reap?
  {
    var fa := tb.task[z].t.father;
    assert Alive(tb.task, fa);
    f :| Is(tb.task, f, fa) && tb.task[f].t.state == Running;
    assert IsChild(tb.task, f, z);
    WaitAny(tb.task, f);
    WaitOne(tb.task, f, tb.task[z].t.pid);
  }

  /** What a process exits with is what its father gets, if nothing comes between; other runs are those of RunKeeps. */
  lemma CodeArrives(tb: Table, c: nat, code: int) returns (f: nat)
    requires Inv(tb) && Enabled(tb, EndsExit(c, code))
    ensures var task := Apply(tb, EndsExit(c, code)).task;
            && f < NR_TASKS && task[f].Used? && task[f].t.pid == tb.task[c].t.father && task[f].t.state == Running
            && WaitScan(task, f, tb.task[c].t.pid, NR_TASKS, false) == Reap(c)
            && task[c].Used? && task[c].t.code == code
            && forall i :: 0 <= i < NR_TASKS && i != c ==> task[i] == tb.task[i]
  {
    EndExitKeeps(tb, c, code);
    f := Reapable(Apply(tb, EndsExit(c, code)), c);
  }

  // ---- From fork to wait ----

  /** Slot i holds a new child of the task in slot c, and the other slots, but for that of task 0, are as they were. */
  ghost predicate HasChild(tb: Table, tb': Table, c: nat, i: nat, pid: nat, state: State) {
    && |tb.task| == |tb'.task| == NR_TASKS && 0 < c < NR_TASKS && 0 < i < NR_TASKS && c != i
    && tb.task[c].Used? && tb.task[i].Free? && !InUse(tb.task, pid) && pid > 0
    && tb'.task[i].Used? && tb'.task[i].t.pid == pid && tb'.task[i].t.father == tb.task[c].t.pid
    && tb'.task[i].t.state == state
    && forall k :: 0 < k < NR_TASKS && k != i ==> tb'.task[k] == tb.task[k]
  }

  lemma ChildForked(tb: Table, c: nat) returns (i: nat)
    requires Inv(tb) && 0 < c < NR_TASKS && |tb.task| == NR_TASKS && tb.task[c].Used? && tb.task[c].t.state == Running
    requires exists i :: 1 <= i < NR_TASKS && tb.task[i].Free?
    ensures Enabled(tb, Forks(c, true)) && Inv(Apply(tb, Forks(c, true)))
    ensures HasChild(tb, Apply(tb, Forks(c, true)), c, i, Forked(tb, c, true).1, Running)
  {
    ForkIs(tb, c, true);
    StepKeeps(tb, Forks(c, true));
    var (tb', r) := Forked(tb, c, true);
    hide Inv, Forked;
    i :| && 1 <= i < NR_TASKS && tb.task[i].Free?
         && var t := tb.task[c].t; tb'.task == tb.task[i := Used(Task(r, t.pid, t.pgrp, Running, t.code))];
  }

  /** The child has no children of its own to give away. */
  lemma ChildExiting(tb: Table, tb1: Table, c: nat, i: nat, pid: nat)
    requires Inv(tb) && Inv(tb1) && HasChild(tb, tb1, c, i, pid, Running) && i > 1
    ensures Enabled(tb1, BeginsExit(i)) && Inv(Apply(tb1, BeginsExit(i)))
    ensures HasChild(tb, Apply(tb1, BeginsExit(i)), c, i, pid, Exiting)
  {
    StepKeeps(tb1, BeginsExit(i));
    var tb2 := Apply(tb1, BeginsExit(i));
    forall k: nat | 0 < k < NR_TASKS
      ensures k != i ==> tb2.task[k] == tb.task[k]
      ensures k == i ==> tb2.task[i].Used? && tb2.task[i].t == tb1.task[i].t.(state := Exiting)
    {
      BeginExitSlot(tb1, i, k);
      FatherUsed(tb, k, pid);
      FatherUsed(tb, c, pid);
    }
  }

  /** Nobody's father has a number that is not in use. */
  lemma FatherUsed(tb: Table, k: nat, pid: nat)
    requires Inv(tb) && 0 < k < NR_TASKS && !InUse(tb.task, pid)
    ensures tb.task[k].Used? ==> tb.task[k].t.father != pid && tb.task[k].t.pid != pid
  {
    if tb.task[k].Used? {
      assert Alive(tb.task, tb.task[k].t.father);
      var j: nat :| Is(tb.task, j, tb.task[k].t.father);
    }
  }

  lemma ChildGone(tb: Table, tb2: Table, c: nat, i: nat, pid: nat, code: int)
    requires Inv(tb2) && HasChild(tb, tb2, c, i, pid, Exiting) && i > 1 && tb.task[c].t.state == Running
    ensures Enabled(tb2, EndsExit(i, code)) && Inv(Apply(tb2, EndsExit(i, code)))
    ensures var tb3 := Apply(tb2, EndsExit(i, code));
            && HasChild(tb, tb3, c, i, pid, Zombie) && tb3.task[i].t.code == code && tb3.lastPid == tb2.lastPid
            && Enabled(tb3, Waits(c, pid))
            && Apply(tb3, Waits(c, pid)) == tb3.(task := tb3.task[i := Free])
  {
    hide Inv, Distinct, Alive;
    EndExitKeeps(tb2, i, code);
    ChildReaped(tb, Apply(tb2, EndsExit(i, code)), c, i, pid);
  }

  lemma ChildReaped(tb: Table, tb3: Table, c: nat, i: nat, pid: nat)
    requires HasChild(tb, tb3, c, i, pid, Zombie) && tb.task[c].t.state == Running
    ensures Enabled(tb3, Waits(c, pid)) && Apply(tb3, Waits(c, pid)) == tb3.(task := tb3.task[i := Free])
  {
    WaitOne(tb3.task, c, pid);
    assert IsChild(tb3.task, c, i);
    assert forall k :: 0 < k < NR_TASKS && k != i && tb3.task[k].Used? ==> tb3.task[k].t.pid != pid;
  }

  /** The whole life of a child: a fork, with a free slot and memory, an exit, and a wait for the number that fork has
      returned. All of it can happen, and then every slot is as it was. */
  lemma LifeOfChild(tb: Table, c: nat, code: int) returns (i: nat, tb1: Table, tb2: Table, tb3: Table)
    requires Inv(tb) && 0 < c < NR_TASKS && |tb.task| == NR_TASKS && tb.task[c].Used? && tb.task[c].t.state == Running
    requires exists i :: 1 <= i < NR_TASKS && tb.task[i].Free?
    ensures Enabled(tb, Forks(c, true)) && tb1 == Apply(tb, Forks(c, true))
    ensures |tb1.task| == NR_TASKS && Enabled(tb1, BeginsExit(i)) && tb2 == Apply(tb1, BeginsExit(i))
    ensures |tb2.task| == NR_TASKS && Enabled(tb2, EndsExit(i, code)) && tb3 == Apply(tb2, EndsExit(i, code))
    ensures var pid := Forked(tb, c, true).1;
            && |tb3.task| == NR_TASKS && Enabled(tb3, Waits(c, pid)) && pid > 0
            && tb1.task != tb.task && tb2.task != tb1.task && tb3.task != tb2.task
            && forall k :: 0 < k < NR_TASKS ==> Apply(tb3, Waits(c, pid)).task[k] == tb.task[k]
  {
    hide Inv, Apply, Forked;
    i := ChildForked(tb, c);
    var pid := Forked(tb, c, true).1;
    SlotOneUsed(tb, i);
    tb1 := Apply(tb, Forks(c, true));
    ChildExiting(tb, tb1, c, i, pid);
    tb2 := Apply(tb1, BeginsExit(i));
    ChildGone(tb, tb2, c, i, pid, code);
    tb3 := Apply(tb2, EndsExit(i, code));
  }

  lemma SlotOneUsed(tb: Table, i: nat)
    requires Inv(tb) && 0 < i < NR_TASKS && tb.task[i].Free?
    ensures i > 1
  {
  }

  /** Tasks 0 and 1, as after the first fork. */
  lemma StartInv(a: Task, b: Task)
    requires a.pid == 0 && a.state == Running && b.pid == 1 && b.father == 0 && b.state == Running
    ensures Inv(Table([Used(a), Used(b)] + seq(NR_TASKS - 2, _ => Free), 1))
  {
    var tb := Table([Used(a), Used(b)] + seq(NR_TASKS - 2, _ => Free), 1);
    assert Is(tb.task, 0, 0);
    assert Alive(tb.task, 0);
  }

  // ---- The code ----

  class ProcessTable {
    const task: array<Slot>
    var lastPid: nat

    ghost function Abs(): Table
      reads this, task
    {
      Table(task[..], lastPid)
    }

    /** find_empty_process, then copy_process: what fork gives its caller. */
    method Fork(c: nat, memory: bool) returns (r: int)
      requires task.Length == NR_TASKS && c < NR_TASKS && task[c].Used? && lastPid < PID_LIMIT
      modifies this, task
      ensures (Abs(), r) == Forked(old(Abs()), c, memory)
    {
      hide InUse;
      lastPid := FindPid(task[..], lastPid);
      var nr := 1;
      while nr < NR_TASKS && task[nr].Used?
        modifies {}
        invariant 1 <= nr <= NR_TASKS && FirstFree(task[..], 1) == FirstFree(task[..], nr)
      {
        nr := nr + 1;
      }
      if nr == NR_TASKS || !memory { return -EAGAIN; }
      task[nr] := Used(task[c].t.(pid := lastPid, father := task[c].t.pid, state := Running));
      assert task[..] == old(task[..])[nr := task[nr]];
      r := lastPid;
    }

    /** The loop of do_exit that gives the children away. */
    method BeginExit(c: nat)
      requires task.Length == NR_TASKS && c < NR_TASKS && task[c].Used?
      modifies task
      ensures Abs() == ExitBegun(old(Abs()), c)
    {
      var pid := task[c].t.pid;
      for i := 0 to NR_TASKS
        invariant forall j :: 0 <= j < i ==> task[j] == Adopted(old(task[j]), pid)
        invariant forall j :: i <= j < NR_TASKS ==> task[j] == old(task[j])
      {
        if task[i].Used? && task[i].t.father == pid { task[i] := Used(task[i].t.(father := 1)); }
      }
      task[c] := Used(task[c].t.(state := Exiting));
      assert task[..] == ExitBegun(old(Abs()), c).task;
    }

    /** The end of do_exit, with tell_father. */
    method EndExit(c: nat, code: int)
      requires task.Length == NR_TASKS && c < NR_TASKS && task[c].Used?
      modifies task
      ensures Abs() == ExitEnded(old(Abs()), c, code)
    {
      var t := task[c].t;
      var told := false;
      if t.father != 0 { told := IsUsed(task[..], t.father); }
      task[c] := if told then Used(t.(state := Zombie, code := code)) else Free;
      assert task[..] == old(task[..])[c := task[c]];
    }

    /** One round of sys_waitpid: the slot of the zombie taken, or what else it does; nohang: WNOHANG. */
    method WaitPid(c: nat, pid: int, nohang: bool) returns (r: WaitResult, code: int)
      requires task.Length == NR_TASKS && c < NR_TASKS && task[c].Used?
      modifies task
      ensures var scan := WaitScan(old(task[..]), c, pid, NR_TASKS, false);
              r == if scan.Sleep? && nohang then NotYet else scan
      ensures r.Reap? ==> old(task[r.slot].Used?) && code == old(task[r.slot].t.code)
      ensures r.Reap? ==> task[..] == old(task[..])[r.slot := Free]
      ensures !r.Reap? ==> task[..] == old(task[..])
    {
      var i, flag := NR_TASKS, false;
      code := 0;
      while i > 1
        modifies {}
        invariant 1 <= i <= NR_TASKS
        invariant WaitScan(task[..], c, pid, NR_TASKS, false) == WaitScan(task[..], c, pid, i, flag)
      {
        if Selected(task[..], c, pid, i - 1) {
          if task[i - 1].t.state == Zombie { break; }
          flag := true;
        }
        i := i - 1;
      }
      if i == 1 {
        r := if flag then (if nohang then NotYet else Sleep) else NoChild;
        return;
      }
      r, code := Reap(i - 1), task[i - 1].t.code;
      task[i - 1] := Free;
      assert task[..] == old(task[..])[i - 1 := Free];
    }
  }
}

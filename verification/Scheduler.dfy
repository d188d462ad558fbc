/**
 schedule(), the counter part of do_timer() and sys_nice() of kernel/sched.c.  Task 0 runs when
 nothing else can; its state and counter are never looked at by schedule().
 */
module Scheduler {

  const NR_TASKS: int := 64
  const RUNNING: int := 0
  const INTERRUPTIBLE: int := 1
  const SIGALRM_BIT: bv32 := 0x0000_2000     // 1 << (SIGALRM - 1)
  const BLOCKABLE: bv32 := 0xfffb_feff       // all but SIGKILL and SIGSTOP

  datatype Slot =
    | Empty
    | Task(state: int, counter: int, priority: int, signal: bv32, blocked: bv32, alarm: int)

  predicate Runnable(s: Slot) {
    s.Task? && s.state == RUNNING
  }

  /** A task's counter never exceeds what a recharge may leave, and is never negative. */
  predicate InBounds(s: Slot) {
    s.Task? ==> 0 < s.priority && 0 <= s.counter <= 2 * s.priority - 1
  }

  predicate TasksOk(tasks: seq<Slot>) {
    |tasks| == NR_TASKS && tasks[0].Task? && forall i :: 0 <= i < NR_TASKS ==> InBounds(tasks[i])
  }

  // ----- what the loops of schedule() compute

  function WithAlarm(signal: bv32): bv32 {
    signal | SIGALRM_BIT
  }

  /** SIGKILL and SIGSTOP cannot be blocked. */
  predicate Deliverable(signal: bv32, blocked: bv32) {
    (signal & !(BLOCKABLE & blocked)) != 0
  }

  /** An alarm that has passed becomes a signal; a signal that is not blocked wakes a task. */
  function Signalled(s: Slot, jiffies: int): Slot {
    if s.Empty? then s
    else
      var rung := s.alarm != 0 && s.alarm < jiffies;
      var signal := if rung then WithAlarm(s.signal) else s.signal;
      s.(signal := signal, alarm := if rung then 0 else s.alarm,
         state := if Deliverable(signal, s.blocked) && s.state == INTERRUPTIBLE then RUNNING else s.state)
  }

  function Recharged(s: Slot): Slot {
    if s.Empty? then s else s.(counter := s.counter / 2 + s.priority)
  }

  /** A recharge gives a task its priority and half of what it had saved: a sleeper only gains,
      and never as much as twice its priority. */
  lemma RechargeGains(s: Slot)
    requires s.Task? && InBounds(s)
    ensures var r := Recharged(s);
      && r == s.(counter := r.counter) && InBounds(r)
      && s.priority <= r.counter && s.counter <= r.counter && 0 <= s.counter - 2 * (r.counter - s.priority) <= 1
  {
  }

  /** SIGKILL (9) and SIGSTOP (19) get through whatever is blocked, the other signals exactly when
      they are not blocked. */
  lemma KillGetsThrough(signal: bv32, blocked: bv32)
    ensures signal & 0x0004_0100 != 0 ==> Deliverable(signal, blocked)
    ensures signal & 0x0004_0100 == 0 ==> (Deliverable(signal, blocked) <==> signal & !blocked != 0)
  {
    Unblocked(signal, blocked);
    Either(signal & 0x0004_0100, signal & !blocked);
  }

  lemma Unblocked(signal: bv32, blocked: bv32)
    ensures signal & !(BLOCKABLE & blocked) == (signal & 0x0004_0100) | (signal & !blocked)
  {
  }

  lemma Either(a: bv32, b: bv32)
    ensures a | b != 0 <==> a != 0 || b != 0
    ensures a == 0 ==> a | b == b
  {
  }

  /** An alarm that is over wakes an interruptible sleeper that does not block SIGALRM (14), once. */
  lemma AlarmWakes(s: Slot, jiffies: int)
    requires s.Task? && s.state == INTERRUPTIBLE && 0 != s.alarm < jiffies && s.blocked & 0x0000_2000 == 0
    ensures var r := Signalled(s, jiffies); Runnable(r) && r.alarm == 0 && r.signal == s.signal | 0x0000_2000 && r.counter == s.counter
  {
    AlarmDelivered(s.signal, s.blocked);
  }

  lemma AlarmDelivered(signal: bv32, blocked: bv32)
    requires blocked & 0x0000_2000 == 0
    ensures Deliverable(WithAlarm(signal), blocked)
  {
  }

  /** The two loops over all slots but that of task 0. */
  function AllSignalled(tasks: seq<Slot>, jiffies: int): (r: seq<Slot>)
    requires |tasks| == NR_TASKS
    ensures |r| == NR_TASKS && r[0] == tasks[0] && forall i :: 1 <= i < NR_TASKS ==> r[i] == Signalled(tasks[i], jiffies)
  {
    seq(NR_TASKS, i requires 0 <= i < NR_TASKS => if i == 0 then tasks[0] else Signalled(tasks[i], jiffies))
  }

  function AllRecharged(tasks: seq<Slot>): (r: seq<Slot>)
    requires |tasks| == NR_TASKS
    ensures |r| == NR_TASKS && r[0] == tasks[0] && forall i :: 1 <= i < NR_TASKS ==> r[i] == Recharged(tasks[i])
  {
    seq(NR_TASKS, i requires 0 <= i < NR_TASKS => if i == 0 then tasks[0] else Recharged(tasks[i]))
  }

  /** next is the runnable task with the highest counter, of several the one with the highest
      number; 0 when there is none. */
  ghost predicate IsNext(tasks: seq<Slot>, next: int)
    requires |tasks| == NR_TASKS
  {
    && 0 <= next < NR_TASKS
    && (next == 0 ==> forall i :: 1 <= i < NR_TASKS ==> !Runnable(tasks[i]))
    && (next != 0 ==> Runnable(tasks[next]) && forall i :: 1 <= i < NR_TASKS && Runnable(tasks[i]) ==>
          tasks[i].counter < tasks[next].counter || (tasks[i].counter == tasks[next].counter && i <= next))
  }

  /** Some task can run and all that can have used up their time. */
  ghost predicate Exhausted(tasks: seq<Slot>)
    requires |tasks| == NR_TASKS
  {
    && (exists i :: 1 <= i < NR_TASKS && Runnable(tasks[i]))
    && (forall i :: 1 <= i < NR_TASKS && Runnable(tasks[i]) ==> tasks[i].counter <= 0)
  }

  class Scheduler {
    var task: seq<Slot>
    var current: int

    ghost predicate Valid()
      reads this
    {
      TasksOk(task) && 0 <= current < NR_TASKS && task[current].Task?
    }

    /** "check alarm, wake up any interruptible tasks that have got a signal" */
    method CheckAlarms(jiffies: int)
      requires |task| == NR_TASKS
      modifies `task
      ensures task == AllSignalled(old(task), jiffies)
    {
      hide Signalled;
      EmptySlot(jiffies);
      var p := NR_TASKS - 1;
      while p > 0
        invariant 0 <= p < NR_TASKS && |task| == NR_TASKS
        invariant forall i :: 0 <= i <= p ==> task[i] == old(task[i])
        invariant forall i :: p < i < NR_TASKS ==> task[i] == Signalled(old(task[i]), jiffies)
      {
        if task[p].Task? {
          CheckAlarm(p, jiffies);
        }
        p := p - 1;
      }
    }

    method CheckAlarm(p: int, jiffies: int)
      requires 0 <= p < |task| && task[p].Task?
      modifies `task
      ensures task == old(task)[p := Signalled(old(task[p]), jiffies)]
    {
      hide Deliverable, WithAlarm;
      var t := task[p];
      if t.alarm != 0 && t.alarm < jiffies {
        t := t.(signal := WithAlarm(t.signal));
        t := t.(alarm := 0);
      }
      if Deliverable(t.signal, t.blocked) && t.state == INTERRUPTIBLE {
        t := t.(state := RUNNING);
      }
      task := task[p := t];
    }

    /** The selection loop; c is -1 when nothing can run. */
    method Select() returns (c: int, next: int)
      requires TasksOk(task)
      ensures IsNext(task, next) && c == if next == 0 then -1 else task[next].counter
    {
      c, next := -1, 0;
      var i := NR_TASKS - 1;
      while i > 0
        invariant 0 <= i < NR_TASKS && (next == 0 || i < next < NR_TASKS)
        invariant next == 0 ==> c == -1 && forall k :: i < k < NR_TASKS ==> !Runnable(task[k])
        invariant next != 0 ==> Runnable(task[next]) && c == task[next].counter
        invariant next != 0 ==> forall k :: i < k < NR_TASKS && Runnable(task[k]) ==>
          task[k].counter < c || (task[k].counter == c && k <= next)
      {
        if Runnable(task[i]) && task[i].counter > c {
          c, next := task[i].counter, i;
        }
        i := i - 1;
      }
    }

    method Recharge()
      requires TasksOk(task)
      modifies `task
      ensures TasksOk(task) && task == AllRecharged(old(task))
    {
      var p := NR_TASKS - 1;
      while p > 0
        invariant 0 <= p < NR_TASKS && TasksOk(task)
        invariant forall i :: 0 <= i <= p ==> task[i] == old(task[i])
        invariant forall i :: p < i < NR_TASKS ==> task[i] == Recharged(old(task[i]))
      {
        if task[p].Task? {
          task := task[p := task[p].(counter := task[p].counter / 2 + task[p].priority)];
        }
        p := p - 1;
      }
    }

    /** schedule(): counters are recharged once, exactly when all runnable tasks have used up
        theirs, and the best task of the result runs.  The loop makes at most two passes. */
    method Schedule(jiffies: int) returns (ghost passes: int)
      requires Valid()
      modifies this
      ensures Valid() && 1 <= passes <= 2
      ensures var woken := AllSignalled(old(task), jiffies);
        && (passes == 2 <==> Exhausted(woken))
        && task == if Exhausted(woken) then AllRecharged(woken) else woken
      ensures IsNext(task, current) && (current != 0 ==> task[current].counter > 0)
    {
      CheckAlarms(jiffies);
      ghost var woken := task;
      passes := 0;
      var c, next := 0, 0;
      while true
        invariant 0 <= passes <= 1 && TasksOk(task)
        invariant passes == 0 ==> task == woken
        invariant passes == 1 ==> Exhausted(woken) && task == AllRecharged(woken)
        decreases 1 - passes
      {
        c, next := Select();
        passes := passes + 1;
        if c != 0 { break; }
        assert Runnable(task[next]);
        Recharge();
      }
      current := next;
    }

    /** The counter part of do_timer: a user-mode tick that uses up the time reschedules, a
        kernel-mode one does not. */
    method DoTimer(user: bool, jiffies: int)
      requires Valid()
      modifies this
      ensures Valid()
      ensures var c := old(task[current]).counter; var left := if c > 1 then c - 1 else 0;
        var ticked := old(task)[old(current) := old(task[current]).(counter := left)];
        if left > 0 || !user then task == ticked && current == old(current) else Scheduled(ticked, jiffies, task, current)
      ensures user ==> Ticks(old(task), old(current), jiffies, task, current)
    {
      task := task[current := task[current].(counter := task[current].counter - 1)];
      if task[current].counter > 0 { return; }
      task := task[current := task[current].(counter := 0)];
      assert task == old(task)[current := old(task[current]).(counter := 0)];
      if !user { return; }
      ghost var ticked := task;
      var passes := Schedule(jiffies);
      assert Scheduled(ticked, jiffies, task, current);
    }

    /** sys_nice: the priority stays positive. */
    method Nice(increment: int)
      requires TasksOk(task) && 0 <= current < NR_TASKS && task[current].Task?
      modifies `task
      ensures var p := old(task[current]).priority;
        task == old(task)[current := old(task[current]).(priority := if p - increment > 0 then p - increment else p)]
      ensures TasksOk(task) <==> task[current].counter <= 2 * task[current].priority - 1
    {
      if task[current].priority - increment > 0 {
        task := task[current := task[current].(priority := task[current].priority - increment)];
      }
    }
  }

  /** What schedule() makes of the tasks, and whom it picks. */
  ghost predicate Scheduled(tasks: seq<Slot>, jiffies: int, after: seq<Slot>, next: int)
    requires |tasks| == NR_TASKS
  {
    var woken := AllSignalled(tasks, jiffies);
    && after == (if Exhausted(woken) then AllRecharged(woken) else woken)
    && IsNext(after, next)
  }

  // ----- no starvation

  /** No alarm is set and no signal waits to wake a task, so the runnable set is fixed. */
  ghost predicate Quiet(tasks: seq<Slot>) {
    forall i :: 0 <= i < |tasks| && tasks[i].Task? ==>
      tasks[i].alarm == 0 && !(Deliverable(tasks[i].signal, tasks[i].blocked) && tasks[i].state == INTERRUPTIBLE)
  }

  lemma QuietSame(tasks: seq<Slot>, jiffies: int)
    requires |tasks| == NR_TASKS && Quiet(tasks)
    ensures AllSignalled(tasks, jiffies) == tasks
  {
    hide Deliverable, WithAlarm;
  }

  /** One user-mode tick of a runnable task. */
  ghost predicate Ticks(tasks: seq<Slot>, current: int, jiffies: int, after: seq<Slot>, next: int)
    requires |tasks| == NR_TASKS && 0 <= current < NR_TASKS && tasks[current].Task?
  {
    var c := tasks[current].counter;
    var left := if c > 1 then c - 1 else 0;
    var ticked := tasks[current := tasks[current].(counter := left)];
    if left > 0 then after == ticked && next == current else Scheduled(ticked, jiffies, after, next)
  }

  /** The time left to the runnable tasks below number n. */
  function Left(tasks: seq<Slot>, n: int): int
    requires 0 <= n <= |tasks|
  {
    if n <= 1 then 0 else Left(tasks, n - 1) + if Runnable(tasks[n - 1]) then tasks[n - 1].counter else 0
  }

  /** The most they can have after a recharge. */
  function Most(tasks: seq<Slot>, n: int): int
    requires 0 <= n <= |tasks|
  {
    if n <= 1 then 0 else Most(tasks, n - 1) + if Runnable(tasks[n - 1]) then 2 * tasks[n - 1].priority - 1 else 0
  }

  /** How many ticks t waits at most. */
  function Bound(tasks: seq<Slot>, t: int): int
    requires |tasks| == NR_TASKS && 0 <= t < NR_TASKS && tasks[t].Task?
  {
    Left(tasks, NR_TASKS) + if tasks[t].counter > 0 then 0 else Most(tasks, NR_TASKS)
  }

  predicate Same(a: Slot, b: Slot) {
    a.Task? == b.Task? && (a.Task? ==> b == a.(counter := b.counter))
  }

  ghost predicate Running(tasks: seq<Slot>, current: int) {
    TasksOk(tasks) && Quiet(tasks) && 1 <= current < NR_TASKS && Runnable(tasks[current]) && tasks[current].counter > 0
  }

  /** Any state between two ticks, also with the idle task running, or a task that a kernel-mode
      tick has left without time. */
  ghost predicate Startable(tasks: seq<Slot>, current: int) {
    TasksOk(tasks) && Quiet(tasks) && 0 <= current < NR_TASKS && tasks[current].Task?
  }

  /** The ticks until such a state is scheduled. */
  ghost function Delay(tasks: seq<Slot>, current: int): int
    requires Startable(tasks, current)
  {
    if Running(tasks, current) then 0 else if tasks[current].counter > 1 then tasks[current].counter else 1
  }

  lemma {:induction false} LeftIgnores(tasks: seq<Slot>, i: int, c: int, n: int)
    requires 0 <= n <= |tasks| && 0 <= i < |tasks| && tasks[i].Task? && (i == 0 || !Runnable(tasks[i]))
    ensures Left(tasks[i := tasks[i].(counter := c)], n) == Left(tasks, n)
    ensures Most(tasks[i := tasks[i].(counter := c)], n) == Most(tasks, n)
  {
    if n > 1 { LeftIgnores(tasks, i, c, n - 1); }
  }

  lemma {:induction false} LeftUpdate(tasks: seq<Slot>, i: int, c: int, n: int)
    requires 0 <= n <= |tasks| && 1 <= i < |tasks| && Runnable(tasks[i])
    ensures Left(tasks[i := tasks[i].(counter := c)], n) == Left(tasks, n) + if i < n then c - tasks[i].counter else 0
    ensures Most(tasks[i := tasks[i].(counter := c)], n) == Most(tasks, n)
  {
    if n > 1 { LeftUpdate(tasks, i, c, n - 1); }
  }

  lemma {:induction false} LeftBelowMost(tasks: seq<Slot>, n: int)
    requires TasksOk(tasks) && 0 <= n <= |tasks|
    ensures 0 <= Left(tasks, n) <= Most(tasks, n)
  {
    if n > 1 { LeftBelowMost(tasks, n - 1); }
  }

  lemma {:induction false} MostSame(a: seq<Slot>, b: seq<Slot>, n: int)
    requires |a| == |b| && 0 <= n <= |a| && forall i :: 0 <= i < |a| ==> Same(a[i], b[i])
    ensures Most(a, n) == Most(b, n)
  {
    if n > 1 { MostSame(a, b, n - 1); assert Same(a[n - 1], b[n - 1]); }
  }

  lemma {:induction false} LeftOfOne(tasks: seq<Slot>, i: int, n: int)
    requires TasksOk(tasks) && 0 <= n <= |tasks| && 1 <= i < n && Runnable(tasks[i])
    ensures tasks[i].counter <= Left(tasks, n)
  {
    LeftBelowMost(tasks, n - 1);
    if i < n - 1 { LeftOfOne(tasks, i, n - 1); }
  }

  /** After each tick the same tasks can run, the running one has time left, and the bound of a
      task that did not run has gone down. */
  lemma TickStep(tasks: seq<Slot>, current: int, jiffies: int, after: seq<Slot>, next: int, t: int)
    requires Running(tasks, current) && Ticks(tasks, current, jiffies, after, next)
    requires 1 <= t < NR_TASKS && Runnable(tasks[t]) && t != current
    ensures Running(after, next) && Runnable(after[t]) && Most(after, NR_TASKS) == Most(tasks, NR_TASKS)
    ensures 0 <= Bound(after, t) < Bound(tasks, t)
  {
    hide Signalled, Deliverable;
    var left := tasks[current].counter - 1;
    var ticked := tasks[current := tasks[current].(counter := left)];
    LeftUpdate(tasks, current, left, NR_TASKS);
    LeftBelowMost(ticked, NR_TASKS);
    if left == 0 {
      hide Scheduled, Quiet;
      QuietTicked(tasks, current, left);
      ScheduledRuns(ticked, jiffies, after, next, t);
    }
  }

  lemma QuietTicked(tasks: seq<Slot>, current: int, left: int)
    requires Quiet(tasks) && 0 <= current < |tasks| && tasks[current].Task?
    ensures Quiet(tasks[current := tasks[current].(counter := left)])
  {
  }

  /** schedule() picks a task with time left, and brings nobody further from running. */
  lemma ScheduledRuns(tasks: seq<Slot>, jiffies: int, after: seq<Slot>, next: int, t: int)
    requires TasksOk(tasks) && Quiet(tasks) && Scheduled(tasks, jiffies, after, next) && 1 <= t < NR_TASKS && Runnable(tasks[t])
    ensures Running(after, next) && Runnable(after[t]) && Most(after, NR_TASKS) == Most(tasks, NR_TASKS)
    ensures 0 <= Bound(after, t) <= Bound(tasks, t)
  {
    hide Signalled, Deliverable;
    QuietSame(tasks, jiffies);
    LeftBelowMost(tasks, NR_TASKS);
    if Exhausted(tasks) {
      assert after == AllRecharged(tasks);
      assert forall i :: 0 <= i < NR_TASKS ==> Same(tasks[i], after[i]);
      MostSame(tasks, after, NR_TASKS);
      LeftBelowMost(after, NR_TASKS);
      assert after[t].counter > 0 && tasks[t].counter == 0;
    }
  }

  /** A tick of a task that is not properly running brings the next call of schedule() nearer,
      or makes it. */
  lemma IdleStep(tasks: seq<Slot>, current: int, jiffies: int, after: seq<Slot>, next: int, t: int)
    requires Startable(tasks, current) && !Running(tasks, current) && Ticks(tasks, current, jiffies, after, next)
    requires 1 <= t < NR_TASKS && Runnable(tasks[t]) && t != current
    ensures Startable(after, next) && Runnable(after[t]) && Most(after, NR_TASKS) == Most(tasks, NR_TASKS)
    ensures 0 <= Bound(after, t) <= Bound(tasks, t) && Delay(after, next) < Delay(tasks, current)
  {
    hide Signalled, Deliverable, Scheduled;
    var c := tasks[current].counter;
    var left := if c > 1 then c - 1 else 0;
    var ticked := tasks[current := tasks[current].(counter := left)];
    if current == 0 || !Runnable(tasks[current]) {
      LeftIgnores(tasks, current, left, NR_TASKS);
    } else {
      assert ticked == tasks;
    }
    LeftBelowMost(ticked, NR_TASKS);
    if left == 0 { ScheduledRuns(ticked, jiffies, after, next, t); }
  }

  /** A run of user-mode ticks. */
  ghost predicate IsRun(states: seq<seq<Slot>>, who: seq<int>, jiffies: int) {
    && |states| == |who| > 0
    && (forall k :: 0 <= k < |who| ==> |states[k]| == NR_TASKS && 0 <= who[k] < NR_TASKS && states[k][who[k]].Task?)
    && (forall k :: 0 <= k < |who| - 1 ==> Ticks(states[k], who[k], jiffies + k, states[k + 1], who[k + 1]))
  }

  /** Every runnable task runs within a number of ticks that the priorities fix: at most twice
      the sum of 2 * priority - 1 over the runnable tasks, after the delay until schedule() is
      called if the run starts in a task that is idle or has used up its time. */
  lemma {:induction false} NoStarvation(states: seq<seq<Slot>>, who: seq<int>, jiffies: int, t: int) returns (k: int)
    requires IsRun(states, who, jiffies) && Startable(states[0], who[0]) && 1 <= t < NR_TASKS && Runnable(states[0][t])
    requires |who| > Bound(states[0], t) + Delay(states[0], who[0])
    ensures 0 <= k < |who| && who[k] == t && k <= Bound(states[0], t) + Delay(states[0], who[0])
    ensures Bound(states[0], t) <= 2 * Most(states[0], NR_TASKS)
    decreases |who|
  {
    LeftBelowMost(states[0], NR_TASKS);
    if who[0] == t {
      k := 0;
    } else {
      if Running(states[0], who[0]) {
        LeftOfOne(states[0], who[0], NR_TASKS);
        TickStep(states[0], who[0], jiffies, states[1], who[1], t);
      } else {
        IdleStep(states[0], who[0], jiffies, states[1], who[1], t);
      }
      assert IsRun(states[1..], who[1..], jiffies + 1);
      k := NoStarvation(states[1..], who[1..], jiffies + 1, t);
      k := k + 1;
    }
  }

  lemma EmptySlot(jiffies: int)
    ensures Signalled(Empty, jiffies) == Empty
  {
  }
}

/**
 sleep_on and wake_up of kernel/sched.c: wait queues that exist only as a head pointer and the
 tmp variables on the stacks of the sleeping tasks.  A task inside sleep_on either sleeps or has
 been made runnable and has yet to run on to its last two lines.
 */
module WaitQueues {

  const NULL: int := -1
  const RUNNING: int := 0
  const UNINTERRUPTIBLE: int := 2

  predicate In(s: seq<seq<int>>, i: int, k: int) {
    0 <= i < |s| && 0 <= k < |s[i]|
  }

  function First(s: seq<int>): int {
    if |s| == 0 then NULL else s[0]
  }

  function Next(s: seq<int>, k: int): int
    requires 0 <= k < |s|
  {
    if k + 1 < |s| then s[k + 1] else NULL
  }

  /** The task reached from a by following n saved tmp pointers. */
  function Follow(tmp: map<int, int>, a: int, n: nat): int {
    if n == 0 then a
    else
      var b := Follow(tmp, a, n - 1);
      if b in tmp then tmp[b] else NULL
  }

  type Chains = seq<seq<int>>

  ghost predicate LinkedIn(tmp: map<int, int>, s: seq<int>) {
    forall k :: 0 <= k < |s| ==> s[k] in tmp && s[k] != NULL && tmp[s[k]] == Next(s, k)
  }

  /** chains[q] are the sleepers behind head[q]. */
  ghost predicate Links(head: seq<int>, tmp: map<int, int>, chains: Chains) {
    && |head| <= |chains|
    && (forall q :: 0 <= q < |head| ==> head[q] == First(chains[q]))
    && (forall i :: 0 <= i < |chains| ==> LinkedIn(tmp, chains[i]))
  }

  /** Every task inside sleep_on is on one chain, once. */
  ghost predicate Partition(tmp: map<int, int>, chains: Chains) {
    && (forall i, k, j, l :: In(chains, i, k) && In(chains, j, l) && chains[i][k] == chains[j][l] ==> i == j && k == l)
    && (forall t :: t in tmp ==> On(chains, t))
    && (forall i, k :: In(chains, i, k) ==> chains[i][k] in tmp)
  }

  ghost predicate On(chains: Chains, t: int) {
    exists i, k :: In(chains, i, k) && chains[i][k] == t
  }

  /** Of the first n chains all tasks sleep; of the others only the first task is runnable. */
  ghost predicate States(state: map<int, int>, chains: Chains, n: int) {
    forall i, k :: In(chains, i, k) ==>
      chains[i][k] in state && state[chains[i][k]] == StateAt(i, k, n)
  }

  function StateAt(i: int, k: int, n: int): int {
    if i >= n && k == 0 then RUNNING else UNINTERRUPTIBLE
  }

  /** The sleepers behind a head came after the queue's last wake_up, the others before it. */
  ghost predicate Ages(on: map<int, int>, since: map<int, int>, wakes: seq<int>, chains: Chains) {
    forall i, k :: In(chains, i, k) ==> Aged(on, since, wakes, i, chains[i][k])
  }

  ghost predicate Aged(on: map<int, int>, since: map<int, int>, wakes: seq<int>, i: int, t: int) {
    && t in on && t in since && 0 <= on[t] < |wakes|
    && (i < |wakes| ==> on[t] == i && since[t] == wakes[i])
    && (i >= |wakes| ==> since[t] < wakes[on[t]])
  }

  // ----- what the three steps keep

  function Slept(chains: Chains, t: int, q: int): Chains
    requires 0 <= q < |chains|
  {
    chains[q := [t] + chains[q]]
  }

  lemma SleepLinks(head: seq<int>, tmp: map<int, int>, chains: Chains, t: int, q: int)
    requires Links(head, tmp, chains) && 0 <= q < |head| && t != NULL && t !in tmp
    ensures Links(head[q := t], tmp[t := head[q]], Slept(chains, t, q))
  {
    var after, m := Slept(chains, t, q), tmp[t := head[q]];
    forall i | 0 <= i < |after| ensures LinkedIn(m, after[i]) {
      assert LinkedIn(tmp, chains[i]);
      forall k | 0 <= k < |after[i]| ensures after[i][k] in m && after[i][k] != NULL && m[after[i][k]] == Next(after[i], k) {
        var l := Shift(q, i, k);
        if l >= 0 { assert after[i][k] == chains[i][l] && tmp[chains[i][l]] == Next(chains[i], l); }
      }
    }
  }

  lemma SleepPartition(tmp: map<int, int>, chains: Chains, t: int, q: int, h: int)
    requires Partition(tmp, chains) && 0 <= q < |chains| && t !in tmp
    ensures Partition(tmp[t := h], Slept(chains, t, q))
  {
    var after, m := Slept(chains, t, q), tmp[t := h];
    forall i, k | In(after, i, k) ensures (i == q && k == 0 && after[i][k] == t) || (In(chains, i, Shift(q, i, k)) && after[i][k] == chains[i][Shift(q, i, k)]) {}
    forall u | u in m ensures On(after, u) {
      if u == t { assert In(after, q, 0) && after[q][0] == t; } else {
        var i, k :| In(chains, i, k) && chains[i][k] == u;
        var l := if i == q then k + 1 else k;
        assert In(after, i, l) && after[i][l] == u;
      }
    }
  }

  function Shift(q: int, i: int, k: int): int {
    if i == q then k - 1 else k
  }

  lemma SleepStates(state: map<int, int>, tmp: map<int, int>, chains: Chains, n: int, t: int, q: int)
    requires States(state, chains, n) && Partition(tmp, chains) && 0 <= q < n <= |chains| && t !in tmp
    ensures States(state[t := UNINTERRUPTIBLE], Slept(chains, t, q), n)
  {
    var after := Slept(chains, t, q);
    forall i, k | In(after, i, k) ensures (i == q && k == 0 && after[i][k] == t) || (In(chains, i, Shift(q, i, k)) && after[i][k] == chains[i][Shift(q, i, k)]) {}
  }

  lemma SleepAges(on: map<int, int>, since: map<int, int>, wakes: seq<int>, tmp: map<int, int>, chains: Chains, t: int, q: int)
    requires Ages(on, since, wakes, chains) && Partition(tmp, chains) && 0 <= q < |wakes| <= |chains| && t !in tmp
    ensures Ages(on[t := q], since[t := wakes[q]], wakes, Slept(chains, t, q))
  {
    var after := Slept(chains, t, q);
    forall i, k | In(after, i, k) ensures (i == q && k == 0 && after[i][k] == t) || (In(chains, i, Shift(q, i, k)) && after[i][k] == chains[i][Shift(q, i, k)]) {}
  }

  function Woken(chains: Chains, q: int): Chains
    requires 0 <= q < |chains|
  {
    chains[q := []] + [chains[q]]
  }

  /** Where the task now at (i, k) was before queue q was woken. */
  function Behind(n: int, q: int, i: int): int {
    if i == n then q else i
  }

  lemma WakeLinks(head: seq<int>, tmp: map<int, int>, chains: Chains, q: int)
    requires Links(head, tmp, chains) && Partition(tmp, chains) && 0 <= q < |head|
    ensures Links(head[q := NULL], tmp, Woken(chains, q)) && Partition(tmp, Woken(chains, q))
  {
    var after, n := Woken(chains, q), |chains|;
    forall i, k | In(after, i, k) ensures In(chains, Behind(n, q, i), k) && after[i][k] == chains[Behind(n, q, i)][k] && i != q {}
    forall t | t in tmp ensures On(after, t) {
      var i, k :| In(chains, i, k) && chains[i][k] == t;
      var j := if i == q then n else i;
      assert In(after, j, k) && after[j][k] == t;
    }
  }

  lemma WakeStates(state: map<int, int>, tmp: map<int, int>, chains: Chains, n: int, q: int)
    requires States(state, chains, n) && Partition(tmp, chains) && 0 <= q < n <= |chains|
    ensures States(if |chains[q]| > 0 then state[chains[q][0] := RUNNING] else state, Woken(chains, q), n)
  {
    var after, m := Woken(chains, q), |chains|;
    forall i, k | In(after, i, k) ensures In(chains, Behind(m, q, i), k) && after[i][k] == chains[Behind(m, q, i)][k] && i != q {}
  }

  lemma WakeAges(on: map<int, int>, since: map<int, int>, wakes: seq<int>, tmp: map<int, int>, chains: Chains, q: int)
    requires Ages(on, since, wakes, chains) && Partition(tmp, chains) && 0 <= q < |wakes| <= |chains|
    ensures Ages(on, since, wakes[q := wakes[q] + 1], Woken(chains, q))
  {
    var after, m := Woken(chains, q), |chains|;
    forall i, k | In(after, i, k) ensures In(chains, Behind(m, q, i), k) && after[i][k] == chains[Behind(m, q, i)][k] && i != q {}
  }

  function Resumed(chains: Chains, j: int): Chains
    requires 0 <= j < |chains| && |chains[j]| > 0
  {
    chains[j := chains[j][1..]]
  }

  function Later(j: int, i: int, k: int): int {
    if i == j then k + 1 else k
  }

  lemma ResumeLinks(head: seq<int>, tmp: map<int, int>, chains: Chains, j: int)
    requires Links(head, tmp, chains) && Partition(tmp, chains) && |head| <= j < |chains| && |chains[j]| > 0
    ensures Links(head, tmp - {chains[j][0]}, Resumed(chains, j)) && Partition(tmp - {chains[j][0]}, Resumed(chains, j))
  {
    var after, t := Resumed(chains, j), chains[j][0];
    assert In(chains, j, 0);
    var m := tmp - {t};
    forall i, k | In(after, i, k) ensures In(chains, i, Later(j, i, k)) && after[i][k] == chains[i][Later(j, i, k)] != t {}
    forall i | 0 <= i < |after| ensures LinkedIn(m, after[i]) {
      assert LinkedIn(tmp, chains[i]);
      forall k | 0 <= k < |after[i]| ensures after[i][k] in m && after[i][k] != NULL && m[after[i][k]] == Next(after[i], k) {
        assert In(after, i, k);
        var l := Later(j, i, k);
        assert tmp[chains[i][l]] == Next(chains[i], l);
      }
    }
    forall u | u in m ensures On(after, u) {
      var i, k :| In(chains, i, k) && chains[i][k] == u;
      var l := if i == j then k - 1 else k;
      assert In(after, i, l) && after[i][l] == u;
    }
  }

  lemma ResumeStates(state: map<int, int>, tmp: map<int, int>, chains: Chains, n: int, j: int)
    requires States(state, chains, n) && Partition(tmp, chains) && 0 <= n <= j < |chains| && |chains[j]| > 0
    ensures States(if |chains[j]| > 1 then state[chains[j][1] := RUNNING] else state, Resumed(chains, j), n)
  {
    var after := Resumed(chains, j);
    forall i, k | In(after, i, k) ensures In(chains, i, Later(j, i, k)) && after[i][k] == chains[i][Later(j, i, k)] {}
    assert |chains[j]| > 1 ==> In(chains, j, 1);
  }

  lemma ResumeAges(on: map<int, int>, since: map<int, int>, wakes: seq<int>, chains: Chains, j: int)
    requires Ages(on, since, wakes, chains) && |wakes| <= j < |chains| && |chains[j]| > 0
    ensures Ages(on, since, wakes, Resumed(chains, j))
  {
    var after := Resumed(chains, j);
    forall i, k | In(after, i, k) ensures In(chains, i, Later(j, i, k)) && after[i][k] == chains[i][Later(j, i, k)] {}
  }

  // ----- no sleeper is lost

  ghost predicate Ok(head: seq<int>, state: map<int, int>, tmp: map<int, int>, chains: Chains) {
    Links(head, tmp, chains) && Partition(tmp, chains) && States(state, chains, |head|)
  }

  lemma {:induction false} FollowChain(tmp: map<int, int>, s: seq<int>, n: nat)
    requires LinkedIn(tmp, s) && n < |s|
    ensures Follow(tmp, s[0], n) == s[n]
  {
    if n > 0 {
      FollowChain(tmp, s, n - 1);
      assert tmp[s[n - 1]] == Next(s, n - 1);
    }
  }

  /** Whoever sleeps is reached along the saved tmp pointers from the head of a queue or from a
      task that has been woken and has yet to resume. */
  lemma SleeperReachable(head: seq<int>, state: map<int, int>, tmp: map<int, int>, chains: Chains, t: int)
    returns (a: int, n: nat)
    requires Ok(head, state, tmp, chains) && t in tmp
    ensures t in state && Follow(tmp, a, n) == t
    ensures a in head || (a in tmp && a in state && state[a] == RUNNING)
  {
    var i, k :| In(chains, i, k) && chains[i][k] == t;
    assert LinkedIn(tmp, chains[i]);
    FollowChain(tmp, chains[i], k);
    a, n := chains[i][0], k;
    assert In(chains, i, 0);
    assert i < |head| ==> head[i] == a;
  }

  lemma FirstRuns(head: seq<int>, state: map<int, int>, tmp: map<int, int>, chains: Chains, i: int)
    requires Ok(head, state, tmp, chains) && 0 <= i < |chains| && |chains[i]| > 0
    ensures i >= |head| ==> chains[i][0] in tmp && chains[i][0] in state && state[chains[i][0]] == RUNNING
  {
    assert In(chains, i, 0);
  }

  /** Once no woken task has yet to resume, everybody still asleep went to sleep after the last
      wake_up of its queue: the earlier sleepers have all been woken. */
  lemma OnlyLateSleepers(head: seq<int>, state: map<int, int>, tmp: map<int, int>, chains: Chains,
      on: map<int, int>, since: map<int, int>, wakes: seq<int>, t: int)
    requires Ok(head, state, tmp, chains) && |wakes| == |head| && Ages(on, since, wakes, chains) && t in tmp
    requires forall u :: u in tmp && u in state ==> state[u] != RUNNING
    ensures t in on && t in since && 0 <= on[t] < |wakes| && since[t] == wakes[on[t]]
  {
    var i, k :| In(chains, i, k) && chains[i][k] == t;
    FirstRuns(head, state, tmp, chains, i);
  }

  class WaitQueues {
    var head: seq<int>               // *p of every queue
    var state: map<int, int>         // the tasks' states
    var tmp: map<int, int>           // tmp of the tasks inside sleep_on
    ghost var chains: Chains
    ghost var on: map<int, int>      // the queue a task sleeps on
    ghost var since: map<int, int>   // how many wake_ups the queue had seen when it went to sleep
    ghost var wakes: seq<int>

    ghost predicate Valid()
      reads this
    {
      Ok(head, state, tmp, chains) && |wakes| == |head| && Ages(on, since, wakes, chains)
    }

    constructor (queues: nat)
      ensures Valid() && |head| == queues && tmp == map[] && wakes == seq(queues, _ => 0)
    {
      head := seq(queues, _ => NULL);
      state, tmp := map[], map[];
      chains := seq(queues, _ => []);
      on, since := map[], map[];
      wakes := seq(queues, _ => 0);
    }

    /** sleep_on up to its call of schedule() */
    method SleepOn(t: int, q: int)
      requires Valid() && 0 <= q < |head| && t > 0 && t !in tmp
      modifies this
      ensures Valid() && head == old(head)[q := t] && tmp == old(tmp)[t := old(head[q])] && state == old(state)[t := UNINTERRUPTIBLE]
      ensures wakes == old(wakes) && on == old(on)[t := q] && since == old(since)[t := wakes[q]]
    {
      hide Links, Partition, States, Ages;
      LinksShape(head, tmp, chains);
      SleepLinks(head, tmp, chains, t, q);
      SleepPartition(tmp, chains, t, q, head[q]);
      SleepStates(state, tmp, chains, |head|, t, q);
      SleepAges(on, since, wakes, tmp, chains, t, q);
      tmp := tmp[t := head[q]];
      head := head[q := t];
      state := state[t := UNINTERRUPTIBLE];
      on := on[t := q];
      since := since[t := wakes[q]];
      chains := Slept(chains, t, q);
    }

    /** sleep_on after schedule() has picked the task again: the one that slept before it is woken. */
    method Resume(t: int)
      requires Valid() && t in tmp && t in state && state[t] == RUNNING
      modifies this
      ensures Valid() && head == old(head) && wakes == old(wakes) && on == old(on) && since == old(since)
      ensures tmp == old(tmp) - {t}
      ensures state == if old(tmp[t]) != NULL then old(state)[old(tmp[t]) := RUNNING] else old(state)
    {
      hide Links, Partition, States, Ages;
      ghost var j := ChainOf(head, state, tmp, chains, t);
      ResumeLinks(head, tmp, chains, j);
      ResumeStates(state, tmp, chains, |head|, j);
      ResumeAges(on, since, wakes, chains, j);
      var before := tmp[t];
      tmp := tmp - {t};
      if before != NULL { state := state[before := RUNNING]; }
      chains := Resumed(chains, j);
    }

    method WakeUp(q: int)
      requires Valid() && 0 <= q < |head|
      modifies this
      ensures Valid() && head == old(head)[q := NULL] && tmp == old(tmp) && on == old(on) && since == old(since)
      ensures state == if old(head[q]) != NULL then old(state)[old(head[q]) := RUNNING] else old(state)
      ensures wakes == old(wakes)[q := old(wakes[q]) + 1]
    {
      hide Links, Partition, States, Ages;
      LinksShape(head, tmp, chains);
      WakeLinks(head, tmp, chains, q);
      WakeStates(state, tmp, chains, |head|, q);
      WakeAges(on, since, wakes, tmp, chains, q);
      assert head[q := NULL] == if head[q] == NULL then head else head[q := NULL];
      if head[q] != NULL {
        state := state[head[q] := RUNNING];
        head := head[q := NULL];
      }
      chains := Woken(chains, q);
      wakes := wakes[q := wakes[q] + 1];
    }

    ghost predicate Late(t: int)
      requires t in on && t in since && 0 <= on[t] < |wakes|
      reads this
    {
      since[t] == wakes[on[t]]
    }

    /** The woken tasks run, in any order, each waking the one before it, until none is left:
        exactly those have left sleep_on that slept when their queue was last woken. */
    method RunWoken()
      requires Valid()
      modifies this
      ensures Valid() && head == old(head) && wakes == old(wakes) && on == old(on) && since == old(since)
      ensures forall t :: t in tmp ==> t in state && state[t] != RUNNING
      ensures forall t :: t in old(tmp) ==> t in on && t in since && 0 <= on[t] < |wakes| && (t in tmp <==> Late(t))
    {
      hide Links, Partition, States, Ages;
      AllHaveAges(tmp, chains, on, since, wakes);
      while exists t :: t in tmp && t in state && state[t] == RUNNING
        invariant Valid() && head == old(head) && wakes == old(wakes) && on == old(on) && since == old(since)
        invariant forall t :: t in tmp ==> t in old(tmp)
        invariant forall t :: t in old(tmp) && Late(t) ==> t in tmp
        decreases |tmp|
      {
        var t :| t in tmp && t in state && state[t] == RUNNING;
        RunningIsEarly(head, state, tmp, chains, on, since, wakes, t);
        Resume(t);
      }
      forall t | t in tmp ensures t in state && Late(t) {
        ghost var a, n := SleeperReachable(head, state, tmp, chains, t);
        OnlyLateSleepers(head, state, tmp, chains, on, since, wakes, t);
      }
    }
  }

  lemma RunningIsEarly(head: seq<int>, state: map<int, int>, tmp: map<int, int>, chains: Chains,
      on: map<int, int>, since: map<int, int>, wakes: seq<int>, t: int)
    requires Ok(head, state, tmp, chains) && |wakes| == |head| && Ages(on, since, wakes, chains)
    requires t in tmp && t in state && state[t] == RUNNING
    ensures t in on && t in since && 0 <= on[t] < |wakes| && since[t] < wakes[on[t]]
  {
    var j := ChainOf(head, state, tmp, chains, t);
    assert In(chains, j, 0);
  }

  lemma AllHaveAges(tmp: map<int, int>, chains: Chains, on: map<int, int>, since: map<int, int>, wakes: seq<int>)
    requires Partition(tmp, chains) && Ages(on, since, wakes, chains)
    ensures forall t :: t in tmp ==> t in on && t in since && 0 <= on[t] < |wakes|
  {
    forall t | t in tmp ensures t in on && t in since && 0 <= on[t] < |wakes| {
      var i, k :| In(chains, i, k) && chains[i][k] == t;
      assert Aged(on, since, wakes, i, t);
    }
  }

  lemma LinksShape(head: seq<int>, tmp: map<int, int>, chains: Chains)
    requires Links(head, tmp, chains)
    ensures |head| <= |chains| && forall q :: 0 <= q < |head| ==> head[q] == First(chains[q]) && (|chains[q]| > 0 ==> chains[q][0] != NULL)
  {
    forall q | 0 <= q < |head| && |chains[q]| > 0 ensures chains[q][0] != NULL { assert LinkedIn(tmp, chains[q]); }
  }

  lemma ChainOf(head: seq<int>, state: map<int, int>, tmp: map<int, int>, chains: Chains, t: int) returns (j: int)
    requires Ok(head, state, tmp, chains) && t in tmp && t in state && state[t] == RUNNING
    ensures |head| <= j < |chains| && |chains[j]| > 0 && chains[j][0] == t
    ensures tmp[t] == if |chains[j]| > 1 then chains[j][1] else NULL
    ensures |chains[j]| > 1 ==> chains[j][1] != NULL
  {
    var i, k :| In(chains, i, k) && chains[i][k] == t;
    j := i;
    assert LinkedIn(tmp, chains[i]) && tmp[chains[i][0]] == Next(chains[i], 0);
  }
}

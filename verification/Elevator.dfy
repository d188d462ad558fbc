/**
 The request queues of kernel/blk_drv/ll_rw_blk.c and blk.h: thirty-two request slots shared by
 the devices' queues, each queue kept in elevator order.
 */
module Elevator {

  const NR_REQUEST: int := 32
  const NR_BLK_DEV: int := 7
  const NULL: int := -1
  const READ: int := 0
  const WRITE: int := 1
  const READA: int := 2
  const WRITEA: int := 3

  datatype Key = Key(cmd: int, dev: int, sector: int)

  /** IN_ORDER */
  predicate InOrder(a: Key, b: Key) {
    a.cmd < b.cmd || (a.cmd == b.cmd && (a.dev < b.dev || (a.dev == b.dev && a.sector < b.sector)))
  }

  lemma OrderIsTotal(a: Key, b: Key, c: Key)
    ensures InOrder(a, b) || InOrder(b, a) || a == b
    ensures InOrder(a, b) ==> !InOrder(b, a)
    ensures InOrder(a, b) && InOrder(b, c) ==> InOrder(a, c)
  {
  }

  /** A queue as the keys of its requests, head first: at most two strictly ascending runs, that is at
      most one place where the order turns back. */
  ghost predicate TwoRuns(s: seq<Key>) {
    forall i, j :: Turn(s, i) && Turn(s, j) ==> i == j
  }

  predicate Turn(s: seq<Key>, i: int) {
    0 <= i < |s| - 1 && !InOrder(s[i], s[i + 1])
  }

  /** add_request stops behind number i. */
  predicate Fits(s: seq<Key>, r: Key, i: int)
    requires 0 <= i < |s| - 1
  {
    (InOrder(s[i], r) || !InOrder(s[i], s[i + 1])) && InOrder(r, s[i + 1])
  }

  /** Where add_request's loop stops: the first place that fits, else the end. */
  ghost predicate Stops(s: seq<Key>, r: Key, i: int) {
    && 0 <= i < |s| && (i < |s| - 1 ==> Fits(s, r, i))
    && forall k :: 0 <= k < i ==> !Fits(s, r, k)
  }

  function Inserted(s: seq<Key>, r: Key, i: int): seq<Key>
    requires 0 <= i < |s|
  {
    s[..i + 1] + [r] + s[i + 1..]
  }

  /** The elevator: inserting a request of a new key keeps at most two ascending runs. */
  lemma InsertKeepsRuns(s: seq<Key>, r: Key, i: int)
    requires TwoRuns(s) && r !in s && Stops(s, r, i)
    ensures TwoRuns(Inserted(s, r, i))
  {
    var t := Inserted(s, r, i);
    if i == |s| - 1 && !InOrder(s[i], r) {
      NoTurnYet(s, r, i);
    }
    assert i < |s| - 1 ==> t[i + 1] == r && t[i + 2] == s[i + 1] && InOrder(r, s[i + 1]);
    forall j | Turn(t, j) ensures (j < i && Turn(s, j)) || (j == i && !InOrder(s[i], r)) || (j > i + 1 && Turn(s, j - 1)) {}
    assert i < |s| - 1 && !InOrder(s[i], r) ==> Turn(s, i);
    forall j, k | Turn(t, j) && Turn(t, k) ensures j == k {
      assert Before(i, j) == Before(i, k) by {
        assert Turn(s, Before(i, j)) || (j == i == |s| - 1);
        assert Turn(s, Before(i, k)) || (k == i == |s| - 1);
      }
    }
  }

  function Before(i: int, j: int): int {
    if j > i then j - 1 else j
  }

  /** A request that goes to the very end out of order meets a queue that is one ascending run. */
  lemma NoTurnYet(s: seq<Key>, r: Key, i: int)
    requires r !in s && Stops(s, r, i) && i == |s| - 1 && !InOrder(s[i], r)
    ensures forall d :: !Turn(s, d)
  {
    forall d ensures !Turn(s, d) {
      if Turn(s, d) {
        assert !Fits(s, r, d);
        OrderIsTotal(r, s[d + 1], r);
        BehindTurn(s, r, d + 1, i);
      }
    }
  }

  lemma {:induction false} BehindTurn(s: seq<Key>, r: Key, d: int, k: int)
    requires r !in s && 0 <= d <= k < |s| && InOrder(s[d], r) && forall j :: d <= j < |s| - 1 ==> !Fits(s, r, j)
    ensures InOrder(s[k], r)
    decreases k - d
  {
    if d < k {
      assert !Fits(s, r, d);
      OrderIsTotal(r, s[d + 1], r);
      BehindTurn(s, r, d + 1, k);
    }
  }

  /** The position on the disk, whatever the command. */
  predicate Lower(a: Key, b: Key) {
    a.dev < b.dev || (a.dev == b.dev && a.sector < b.sector)
  }

  /** Reads overtake writes: behind any read of a lower position, say the one in service, a new
      read has only reads of lower positions before it; what it goes in front of is a write or a
      read of a higher position.  At the very end it then finds no write at all before it. */
  lemma {:induction false} ReadOvertakes(s: seq<Key>, r: Key, i: int, k: int)
    requires Stops(s, r, i) && r !in s && r.cmd == READ && forall j :: 0 <= j < |s| ==> s[j].cmd == READ || s[j].cmd == WRITE
    requires 0 <= k <= i && s[k].cmd == READ && Lower(s[k], r)
    ensures forall j :: k <= j <= i ==> s[j].cmd == READ && Lower(s[j], r)
    ensures i + 1 < |s| ==> s[i + 1].cmd == WRITE || Lower(r, s[i + 1])
    decreases i - k
  {
    if k < i {
      assert !Fits(s, r, k) && s[k + 1] != r;
      ReadOvertakes(s, r, i, k + 1);
    }
  }

  /** A write goes behind everything or in front of a write of a higher position, never in front
      of a read. */
  lemma WriteWaits(s: seq<Key>, r: Key, i: int)
    requires Stops(s, r, i) && r.cmd == WRITE && forall j :: 0 <= j < |s| ==> s[j].cmd == READ || s[j].cmd == WRITE
    ensures i + 1 < |s| ==> s[i + 1].cmd == WRITE && Lower(r, s[i + 1])
  {
  }

  lemma RestKeepsRuns(s: seq<Key>)
    requires TwoRuns(s) && |s| > 0
    ensures TwoRuns(s[1..])
  {
    forall i, j | Turn(s[1..], i) && Turn(s[1..], j) ensures i == j {
      assert Turn(s, i + 1) && Turn(s, j + 1);
    }
  }

  /** With a key that is already queued a third run can appear. */
  lemma EqualKeyThirdRun()
    ensures var q := [Key(READ, 3, 5), Key(READ, 3, 1), Key(READ, 3, 9)];
      var r := Key(READ, 3, 1);
      TwoRuns(q) && Stops(q, r, 2) && !TwoRuns(Inserted(q, r, 2))
  {
    var q := [Key(READ, 3, 5), Key(READ, 3, 1), Key(READ, 3, 9)];
    var t := Inserted(q, Key(READ, 3, 1), 2);
    assert t[3] == Key(READ, 3, 1);
    assert Turn(t, 0) && Turn(t, 2);
  }

  // ----- the slots

  /** dev is -1 in a free slot; bh is the number of the buffer; next is a slot or NULL. */
  datatype Request = Request(dev: int, cmd: int, sector: int, bh: int, next: int)

  datatype Buffer = Buffer(dev: int, block: int, lock: bool, dirt: bool, uptodate: bool)

  /** Writes may use only the first two thirds of the slots. */
  function SlotLimit(cmd: int): int {
    if cmd == READ then NR_REQUEST else NR_REQUEST * 2 / 3
  }

  function KeyOf(r: Request): Key {
    Key(r.cmd, r.dev, r.sector)
  }

  function Major(dev: int): int {
    dev / 256
  }

  predicate In(queues: seq<seq<int>>, m: int, k: int) {
    0 <= m < |queues| && 0 <= k < |queues[m]|
  }

  function First(s: seq<int>): int {
    if |s| == 0 then NULL else s[0]
  }

  function Next(s: seq<int>, k: int): int
    requires 0 <= k < |s|
  {
    if k + 1 < |s| then s[k + 1] else NULL
  }

  /** The pointers are those of the queues. */
  ghost predicate Linked(request: seq<Request>, current: seq<int>, queues: seq<seq<int>>) {
    && |request| == NR_REQUEST && |current| == |queues| == NR_BLK_DEV
    && (forall m :: 0 <= m < NR_BLK_DEV ==> current[m] == First(queues[m]))
    && (forall m, k :: In(queues, m, k) ==> 0 <= queues[m][k] < NR_REQUEST && request[queues[m][k]].next == Next(queues[m], k))
  }

  /** Every slot is either free or in one queue, once. */
  ghost predicate Slots(request: seq<Request>, queues: seq<seq<int>>) {
    && (forall m, k, n, l :: In(queues, m, k) && In(queues, n, l) && queues[m][k] == queues[n][l] ==> m == n && k == l)
    && (forall q :: 0 <= q < |request| ==> (request[q].dev >= 0 <==> Queued(queues, q)))
  }

  ghost predicate Queued(queues: seq<seq<int>>, q: int) {
    exists m, k :: In(queues, m, k) && queues[m][k] == q
  }

  /** What a slot in use says: a request for a locked buffer of a device of its queue; the last
      third of the slots is for reads. */
  predicate RequestOk(r: Request, q: int, m: int, buffers: seq<Buffer>) {
    && 0 <= r.bh < |buffers| && buffers[r.bh].lock && r.dev == buffers[r.bh].dev >= 0 && r.sector == 2 * buffers[r.bh].block
    && Major(r.dev) == m && (r.cmd == READ || r.cmd == WRITE) && (r.cmd == WRITE ==> q < NR_REQUEST * 2 / 3)
  }

  ghost predicate Contents(request: seq<Request>, queues: seq<seq<int>>, buffers: seq<Buffer>) {
    && (forall m, k :: In(queues, m, k) ==> 0 <= queues[m][k] < |request| && RequestOk(request[queues[m][k]], queues[m][k], m, buffers))
    && (forall q, p :: InUse(request, q) && InUse(request, p) && request[q].bh == request[p].bh ==> q == p)
  }

  predicate InUse(request: seq<Request>, q: int) {
    0 <= q < |request| && request[q].dev >= 0
  }

  /** A block is in one buffer only. */
  ghost predicate Identities(buffers: seq<Buffer>) {
    forall i, j :: 0 <= i < |buffers| && 0 <= j < |buffers| && buffers[i].dev == buffers[j].dev >= 0 && buffers[i].block == buffers[j].block ==> i == j
  }

  function Keys(request: seq<Request>, queue: seq<int>): (s: seq<Key>)
    requires forall k :: 0 <= k < |queue| ==> 0 <= queue[k] < |request|
    ensures |s| == |queue| && forall k :: 0 <= k < |s| ==> s[k] == KeyOf(request[queue[k]])
  {
    seq(|queue|, k requires 0 <= k < |queue| => KeyOf(request[queue[k]]))
  }

  ghost predicate Runs(request: seq<Request>, queues: seq<seq<int>>)
    requires forall m, k :: In(queues, m, k) ==> 0 <= queues[m][k] < |request|
  {
    forall m :: 0 <= m < |queues| ==> RunsOf(request, queues, m)
  }

  ghost predicate RunsOf(request: seq<Request>, queues: seq<seq<int>>, m: int)
    requires 0 <= m < |queues| && forall m, k :: In(queues, m, k) ==> 0 <= queues[m][k] < |request|
  {
    assert forall k :: 0 <= k < |queues[m]| ==> In(queues, m, k);
    TwoRuns(Keys(request, queues[m]))
  }

  ghost predicate Ok(request: seq<Request>, current: seq<int>, queues: seq<seq<int>>, buffers: seq<Buffer>) {
    Linked(request, current, queues) && Slots(request, queues) && Contents(request, queues, buffers) && Identities(buffers)
    && Runs(request, queues)
  }

  // ----- putting a request into a queue

  /** Slot q, whose request is r, goes behind number i of queue m; into an empty queue for i = -1. */
  function Put(queues: seq<seq<int>>, m: int, i: int, q: int): seq<seq<int>>
    requires 0 <= m < |queues| && -1 <= i < |queues[m]|
  {
    queues[m := queues[m][..i + 1] + [q] + queues[m][i + 1..]]
  }

  function PutRequest(request: seq<Request>, queue: seq<int>, i: int, q: int, r: Request): (s: seq<Request>)
    requires 0 <= q < |request| && -1 <= i < |queue| && (i >= 0 ==> 0 <= queue[i] < |request| && queue[i] != q)
    ensures |s| == |request|
  {
    var s := request[q := r.(next := if i < 0 then NULL else request[queue[i]].next)];
    if i < 0 then s else s[queue[i] := s[queue[i]].(next := q)]
  }

  /** Where the slot now at (n, k) was before. */
  function Was(m: int, i: int, n: int, k: int): int {
    if n == m && k > i then k - 1 else k
  }

  lemma PutPlaces(queues: seq<seq<int>>, m: int, i: int, q: int)
    requires 0 <= m < |queues| && -1 <= i < |queues[m]|
    ensures forall n, k :: In(Put(queues, m, i, q), n, k) ==>
      (n == m && k == i + 1 && Put(queues, m, i, q)[n][k] == q) ||
      (In(queues, n, Was(m, i, n, k)) && Put(queues, m, i, q)[n][k] == queues[n][Was(m, i, n, k)])
  {
  }

  lemma PutLinked(request: seq<Request>, current: seq<int>, queues: seq<seq<int>>, m: int, i: int, q: int, r: Request)
    requires Linked(request, current, queues) && Slots(request, queues) && 0 <= m < NR_BLK_DEV && -1 <= i < |queues[m]|
    requires 0 <= q < NR_REQUEST && !InUse(request, q) && (i < 0 ==> queues[m] == [])
    ensures i >= 0 ==> 0 <= queues[m][i] < NR_REQUEST && queues[m][i] != q
    ensures Linked(PutRequest(request, queues[m], i, q, r), if i < 0 then current[m := q] else current, Put(queues, m, i, q))
  {
    PutPlaces(queues, m, i, q);
    NotQueued(request, queues, q);
    assert i >= 0 ==> In(queues, m, i);
    var after, s := Put(queues, m, i, q), PutRequest(request, queues[m], i, q, r);
    forall n, k | In(after, n, k) ensures 0 <= after[n][k] < NR_REQUEST && s[after[n][k]].next == Next(after[n], k) {
      if !(n == m && k == i + 1) {
        var l := Was(m, i, n, k);
        assert In(queues, n, l) && request[queues[n][l]].next == Next(queues[n], l);
        if i >= 0 && queues[n][l] == queues[m][i] { assert n == m && l == i; }
      }
    }
  }

  lemma NotQueued(request: seq<Request>, queues: seq<seq<int>>, q: int)
    requires Slots(request, queues) && 0 <= q < |request| && !InUse(request, q)
    ensures forall n, k :: In(queues, n, k) ==> queues[n][k] != q
  {
    assert !Queued(queues, q);
  }

  lemma PutSlots(request: seq<Request>, queues: seq<seq<int>>, m: int, i: int, q: int, s: seq<Request>)
    requires Slots(request, queues) && 0 <= m < |queues| && -1 <= i < |queues[m]| && 0 <= q < |request| && !InUse(request, q)
    requires |s| == |request| && forall p :: 0 <= p < |s| ==> (s[p].dev >= 0 <==> request[p].dev >= 0 || p == q)
    ensures Slots(s, Put(queues, m, i, q))
  {
    PutPlaces(queues, m, i, q);
    NotQueued(request, queues, q);
    var after := Put(queues, m, i, q);
    forall p | 0 <= p < |s| ensures s[p].dev >= 0 <==> Queued(after, p) {
      if p == q { assert In(after, m, i + 1) && after[m][i + 1] == q; }
      if Queued(queues, p) {
        var n, k :| In(queues, n, k) && queues[n][k] == p;
        var l := if n == m && k > i then k + 1 else k;
        assert In(after, n, l) && after[n][l] == p;
      }
    }
  }

  lemma PutContents(request: seq<Request>, queues: seq<seq<int>>, buffers: seq<Buffer>, m: int, i: int, q: int, r: Request, s: seq<Request>)
    requires Contents(request, queues, buffers) && Slots(request, queues) && 0 <= m < |queues| && -1 <= i < |queues[m]|
    requires 0 <= q < |request| && !InUse(request, q) && RequestOk(r, q, m, buffers)
    requires forall p :: InUse(request, p) ==> request[p].bh != r.bh
    requires |s| == |request| && s[q] == r.(next := s[q].next)
    requires forall p :: 0 <= p < |s| && p != q ==> s[p] == request[p].(next := s[p].next)
    ensures Contents(s, Put(queues, m, i, q), buffers)
  {
    PutPlaces(queues, m, i, q);
    NotQueued(request, queues, q);
    assert forall p :: InUse(s, p) && p != q ==> InUse(request, p);
  }

  /** Two queued requests never have the same key. */
  lemma KeysDistinct(request: seq<Request>, queues: seq<seq<int>>, buffers: seq<Buffer>, m: int, r: Request, q: int)
    requires Contents(request, queues, buffers) && Slots(request, queues) && Identities(buffers) && 0 <= m < |queues|
    requires RequestOk(r, q, m, buffers) && forall p :: InUse(request, p) ==> request[p].bh != r.bh
    ensures forall k :: 0 <= k < |queues[m]| ==> 0 <= queues[m][k] < |request| && KeyOf(request[queues[m][k]]) != KeyOf(r)
  {
    forall k | 0 <= k < |queues[m]| ensures 0 <= queues[m][k] < |request| && KeyOf(request[queues[m][k]]) != KeyOf(r) {
      assert In(queues, m, k) && Queued(queues, queues[m][k]);
      assert InUse(request, queues[m][k]);
    }
  }

  lemma PutRuns(request: seq<Request>, queues: seq<seq<int>>, m: int, i: int, q: int, r: Request, s: seq<Request>)
    requires forall n, k :: In(queues, n, k) ==> 0 <= queues[n][k] < |request| && queues[n][k] != q
    requires Runs(request, queues) && 0 <= m < |queues| && -1 <= i < |queues[m]| && (i < 0 ==> queues[m] == [])
    requires |s| == |request| && 0 <= q < |s| && KeyOf(s[q]) == KeyOf(r) && forall p :: 0 <= p < |s| && p != q ==> KeyOf(s[p]) == KeyOf(request[p])
    requires i >= 0 ==> KeyOf(r) !in Keys(request, queues[m]) && Stops(Keys(request, queues[m]), KeyOf(r), i)
    ensures forall n, k :: In(Put(queues, m, i, q), n, k) ==> 0 <= Put(queues, m, i, q)[n][k] < |s|
    ensures Runs(s, Put(queues, m, i, q))
  {
    PutPlaces(queues, m, i, q);
    var after := Put(queues, m, i, q);
    forall n | 0 <= n < |after| ensures RunsOf(s, after, n) {
      assert RunsOf(request, queues, n);
      assert forall k :: 0 <= k < |queues[n]| ==> In(queues, n, k);
      assert forall k :: 0 <= k < |after[n]| ==> In(after, n, k);
      var was, now := Keys(request, queues[n]), Keys(s, after[n]);
      if n != m {
        assert now == was;
      } else if i >= 0 {
        InsertKeepsRuns(was, KeyOf(r), i);
        assert now == Inserted(was, KeyOf(r), i);
      }
    }
  }

  // ----- taking the first request out

  function Pop(queues: seq<seq<int>>, m: int): seq<seq<int>>
    requires 0 <= m < |queues| && |queues[m]| > 0
  {
    queues[m := queues[m][1..]]
  }

  function After(m: int, n: int, k: int): int {
    if n == m then k + 1 else k
  }

  lemma PopPlaces(queues: seq<seq<int>>, m: int)
    requires 0 <= m < |queues| && |queues[m]| > 0
    ensures forall n, k :: In(Pop(queues, m), n, k) ==> In(queues, n, After(m, n, k)) && Pop(queues, m)[n][k] == queues[n][After(m, n, k)]
  {
  }

  lemma PopHead(request: seq<Request>, current: seq<int>, queues: seq<seq<int>>, buffers: seq<Buffer>, m: int)
    requires Linked(request, current, queues) && Slots(request, queues) && Contents(request, queues, buffers)
    requires 0 <= m < NR_BLK_DEV && |queues[m]| > 0
    ensures current[m] == queues[m][0] && 0 <= current[m] < NR_REQUEST && InUse(request, current[m])
    ensures RequestOk(request[current[m]], current[m], m, buffers)
    ensures forall n, k :: In(Pop(queues, m), n, k) ==> Pop(queues, m)[n][k] != current[m]
  {
    assert In(queues, m, 0);
    PopPlaces(queues, m);
  }

  lemma PopLinked(request: seq<Request>, current: seq<int>, queues: seq<seq<int>>, buffers: seq<Buffer>, m: int)
    requires Linked(request, current, queues) && Slots(request, queues) && Contents(request, queues, buffers)
    requires 0 <= m < NR_BLK_DEV && |queues[m]| > 0 && 0 <= current[m] < NR_REQUEST
    ensures var s := request[current[m] := request[current[m]].(dev := -1)];
      Linked(s, current[m := request[current[m]].next], Pop(queues, m))
  {
    PopHead(request, current, queues, buffers, m);
    PopPlaces(queues, m);
    assert In(queues, m, 0) && request[queues[m][0]].next == Next(queues[m], 0);
    var s, after := request[current[m] := request[current[m]].(dev := -1)], Pop(queues, m);
    forall n, k | In(after, n, k) ensures 0 <= after[n][k] < NR_REQUEST && s[after[n][k]].next == Next(after[n], k) {
      var l := After(m, n, k);
      assert In(queues, n, l) && request[queues[n][l]].next == Next(queues[n], l);
    }
  }

  lemma PopSlots(request: seq<Request>, current: seq<int>, queues: seq<seq<int>>, buffers: seq<Buffer>, m: int)
    requires Linked(request, current, queues) && Slots(request, queues) && Contents(request, queues, buffers)
    requires 0 <= m < NR_BLK_DEV && |queues[m]| > 0 && 0 <= current[m] < NR_REQUEST
    ensures var s := request[current[m] := request[current[m]].(dev := -1)];
      Slots(s, Pop(queues, m)) && Contents(s, Pop(queues, m), buffers)
  {
    PopHead(request, current, queues, buffers, m);
    PopPlaces(queues, m);
    var s, after := request[current[m] := request[current[m]].(dev := -1)], Pop(queues, m);
    forall p | 0 <= p < |s| ensures s[p].dev >= 0 <==> Queued(after, p) {
      if Queued(queues, p) && p != current[m] {
        var n, k :| In(queues, n, k) && queues[n][k] == p;
        var l := if n == m then k - 1 else k;
        assert In(after, n, l) && after[n][l] == p;
      }
    }
    assert forall p :: InUse(s, p) ==> InUse(request, p);
  }

  lemma PopRuns(request: seq<Request>, queues: seq<seq<int>>, m: int, s: seq<Request>)
    requires forall n, k :: In(queues, n, k) ==> 0 <= queues[n][k] < |request|
    requires Runs(request, queues) && 0 <= m < |queues| && |queues[m]| > 0
    requires |s| == |request| && forall n, k :: In(Pop(queues, m), n, k) && 0 <= Pop(queues, m)[n][k] < |s| ==>
      s[Pop(queues, m)[n][k]] == request[Pop(queues, m)[n][k]]
    ensures forall n, k :: In(Pop(queues, m), n, k) ==> 0 <= Pop(queues, m)[n][k] < |s|
    ensures Runs(s, Pop(queues, m))
  {
    PopPlaces(queues, m);
    var after := Pop(queues, m);
    forall n | 0 <= n < |after| ensures RunsOf(s, after, n) {
      assert RunsOf(request, queues, n);
      assert forall k :: 0 <= k < |queues[n]| ==> In(queues, n, k);
      assert forall k :: 0 <= k < |after[n]| ==> In(after, n, k);
      var was, now := Keys(request, queues[n]), Keys(s, after[n]);
      if n != m {
        assert now == was;
      } else {
        RestKeepsRuns(was);
        assert now == was[1..];
      }
    }
  }

  // ----- the block layer

  /** make_request is over, or its task sleeps: for the buffer's lock, or holding it for a slot. */
  datatype Outcome = Over | AwaitBuffer | AwaitSlot

  /** Place i of queue m is where the elevator puts key r: -1 in an empty queue. */
  ghost predicate PlacedAt(request: seq<Request>, queues: seq<seq<int>>, m: int, i: int, r: Key) {
    && 0 <= m < |queues| && -1 <= i < |queues[m]| && (i == -1 <==> queues[m] == [])
    && (forall k :: 0 <= k < |queues[m]| ==> 0 <= queues[m][k] < |request|)
    && (i >= 0 ==> Stops(Keys(request, queues[m]), r, i))
  }

  /** A read-ahead or write-ahead is a read or write that may be given up. */
  function Command(rw: int): int {
    if rw == READA then READ else if rw == WRITEA then WRITE else rw
  }

  predicate Needed(rw: int, b: Buffer) {
    if Command(rw) == WRITE then b.dirt else !b.uptodate
  }

  /** The state of the block layer at one point of a run. */
  datatype Layer = Layer(request: seq<Request>, current: seq<int>, queues: seq<seq<int>>, buffers: seq<Buffer>, asking: map<int, int>)

  predicate HasDevice(buffers: seq<Buffer>, b: int) {
    0 <= b < |buffers| && buffers[b].dev >= 0 && 0 <= Major(buffers[b].dev) < NR_BLK_DEV
  }

  function KeyFor(cmd: int, b: Buffer): Key {
    Key(cmd, b.dev, 2 * b.block)
  }

  /** All slots but q keep their requests; only links change. */
  predicate OthersSame(request: seq<Request>, after: seq<Request>, q: int) {
    |after| == |request| && forall p :: 0 <= p < |request| && p != q ==> after[p] == request[p].(next := after[p].next)
  }

  /** A free slot is filled and goes where the elevator wants it. */
  ghost predicate Enters(a: Layer, cmd: int, b: int, slot: int, place: int, z: Layer)
    requires HasDevice(a.buffers, b)
  {
    var m, k := Major(a.buffers[b].dev), KeyFor(cmd, a.buffers[b]);
    && 0 <= slot < |z.request| && !InUse(a.request, slot) && InUse(z.request, slot) && z.request[slot].bh == b && KeyOf(z.request[slot]) == k
    && OthersSame(a.request, z.request, slot)
    && PlacedAt(a.request, a.queues, m, place, k) && z.queues == Put(a.queues, m, place, slot)
  }

  predicate NoSlot(request: seq<Request>, cmd: int) {
    forall q :: 0 <= q < SlotLimit(cmd) ==> InUse(request, q)
  }

  /** A task asks for a transfer. */
  ghost predicate Asks(a: Layer, rw: int, b: int, slot: int, place: int, z: Layer) {
    if !HasDevice(a.buffers, b) || !(READ <= rw <= WRITEA) || a.buffers[b].lock then z == a
    else if !Needed(rw, a.buffers[b]) then z.queues == a.queues && z.buffers == a.buffers && z.request == a.request && z.asking == a.asking
    else if NoSlot(a.request, Command(rw)) then
      && z.queues == a.queues && z.request == a.request
      && (if rw >= READA then z.buffers == a.buffers else z.buffers == a.buffers[b := a.buffers[b].(lock := true)])
      && z.asking == if rw >= READA then a.asking - {b} else a.asking[b := rw]
    else
      && Enters(a, Command(rw), b, slot, place, z)
      && z.buffers == a.buffers[b := a.buffers[b].(lock := true, dirt := false)] && z.asking == a.asking - {b}
  }

  /** A task that slept for a slot tries again. */
  ghost predicate Retries(a: Layer, b: int, slot: int, place: int, z: Layer) {
    if b !in a.asking then z == a
    else
      && HasDevice(a.buffers, b)
      && if NoSlot(a.request, a.asking[b]) then z == a
         else
           && Enters(a, a.asking[b], b, slot, place, z)
           && z.buffers == a.buffers[b := a.buffers[b].(dirt := false)] && z.asking == a.asking - {b}
  }

  /** The request in service ends: its slot is free and its buffer unlocked, the others keep
      their places. */
  ghost predicate Ends(a: Layer, m: int, uptodate: bool, z: Layer) {
    if !(0 <= m < |a.queues|) || a.queues[m] == [] then z == a
    else
      var h := a.queues[m][0];
      && 0 <= h < |a.request| && 0 <= a.request[h].bh < |a.buffers|
      && z.queues == Pop(a.queues, m) && z.request == a.request[h := a.request[h].(dev := -1)]
      && z.buffers == a.buffers[a.request[h].bh := a.buffers[a.request[h].bh].(uptodate := uptodate, lock := false)] && z.asking == a.asking
  }

  ghost predicate Happens(a: Layer, e: Event, slot: int, place: int, z: Layer) {
    match e
    case Ask(rw, b) => Asks(a, rw, b, slot, place, z)
    case Retry(b) => Retries(a, b, slot, place, z)
    case Complete(m, uptodate) => Ends(a, m, uptodate, z)
  }

  class BlockLayer {
    var request: seq<Request>
    var current: seq<int>              // blk_dev[].current_request
    var buffers: seq<Buffer>
    var asking: map<int, int>          // buffers locked by tasks asleep in wait_for_request: the command
    ghost var queues: seq<seq<int>>

    ghost predicate Valid()
      reads this
    {
      && Ok(request, current, queues, buffers)
      && (forall b :: b in asking ==> AskingOk(request, buffers, b, asking[b]))
    }

    /** Every locked buffer other than c has a request queued or a task asking for a slot: no
        transfer is forgotten. */
    ghost predicate NoneLost(c: int)
      reads this
    {
      forall b :: 0 <= b < |buffers| && b != c && buffers[b].lock ==> b in asking || !Unqueued(request, b)
    }

    /** blk_dev_init */
    constructor (buffers: seq<Buffer>)
      requires Identities(buffers)
      ensures (forall b :: 0 <= b < |buffers| ==> !buffers[b].lock) ==> NoneLost(NULL)
      ensures Valid() && this.buffers == buffers && asking == map[] && forall m :: 0 <= m < NR_BLK_DEV ==> queues[m] == []
    {
      request := seq(NR_REQUEST, _ => Request(-1, 0, 0, 0, NULL));
      current := seq(NR_BLK_DEV, _ => NULL);
      queues := seq(NR_BLK_DEV, _ => []);
      this.buffers := buffers;
      asking := map[];
      new;
      assert forall m :: 0 <= m < NR_BLK_DEV ==> Keys(request, queues[m]) == [];
    }

    /** add_request: the request in service stays first, the others keep their order, and the new
        one goes where the elevator wants it. */
    method AddRequest(m: int, q: int, r: Request) returns (started: bool, ghost i: int)
      requires Valid() && 0 <= m < NR_BLK_DEV && 0 <= q < NR_REQUEST && !InUse(request, q)
      requires RequestOk(r, q, m, buffers) && Unqueued(request, r.bh) && r.bh !in asking
      modifies `request, `current, `buffers, `queues
      ensures Valid() && started == (old(current[m]) == NULL) && -1 <= i < |old(queues[m])| && queues == Put(old(queues), m, i, q)
      ensures started <==> i == -1
      ensures i >= 0 ==> 0 <= old(queues)[m][i] < NR_REQUEST && old(queues)[m][i] != q
      ensures PlacedAt(old(request), old(queues), m, i, KeyOf(r))
      ensures request == PutRequest(old(request), old(queues)[m], i, q, r)
      ensures InUse(request, q) && request[q] == r.(next := request[q].next) && OthersSame(old(request), request, q)
      ensures forall p :: InUse(old(request), p) ==> InUse(request, p) && request[p].bh == old(request)[p].bh
      ensures current == if started then old(current)[m := q] else old(current)
      ensures buffers == old(buffers)[r.bh := old(buffers[r.bh]).(dirt := false)]
    {
      hide Linked, Slots, Contents, Runs, Stops, RequestOk, Put;
      RequestBuffer(r, q, m, buffers);
      buffers := buffers[r.bh := buffers[r.bh].(dirt := false)];
      CleanBuffer(request, current, queues, old(buffers), r.bh, buffers);
      QueueShape(request, current, queues, m);
      NotQueued(request, queues, q);
      CleanRequest(r, q, m, old(buffers), buffers);
      KeysDistinct(request, queues, buffers, m, r, q);
      ghost var was := request;
      var tmp := current[m];
      request := request[q := r.(next := NULL)];
      started := tmp == NULL;
      i := -1;
      if tmp == NULL {
        current := current[m := q];
      } else {
        tmp, i := FindPlace(m, q, r, was);
        request := request[q := request[q].(next := request[tmp].next)];
        request := request[tmp := request[tmp].(next := q)];
      }
      assert request == PutRequest(was, queues[m], i, q, r);
      PutKeeps(was, old(current), queues, buffers, m, i, q, r);
      PutOthers(was, queues[m], i, q, r);
      queues := Put(queues, m, i, q);
    }

    /** the elevator's search in a queue that is not empty */
    method FindPlace(m: int, q: int, r: Request, ghost was: seq<Request>) returns (tmp: int, ghost i: int)
      requires 0 <= m < |current| && m < |queues| && current[m] == First(queues[m]) && |queues[m]| > 0
      requires 0 <= q < |was| && request == was[q := r.(next := NULL)]
      requires forall k :: 0 <= k < |queues[m]| ==> 0 <= queues[m][k] < |was| && queues[m][k] != q && was[queues[m][k]].next == Next(queues[m], k)
      ensures 0 <= i < |queues[m]| && tmp == queues[m][i] && Stops(Keys(was, queues[m]), KeyOf(r), i)
    {
      hide InOrder, KeyOf, Keys;
      ghost var keys := Keys(was, queues[m]);
      tmp := current[m];
      i := 0;
      while request[tmp].next != NULL
        invariant 0 <= i < |queues[m]| && tmp == queues[m][i]
        invariant forall k :: 0 <= k < i ==> !Fits(keys, KeyOf(r), k)
        decreases |queues[m]| - i
      {
        var next := request[tmp].next;
        assert next == queues[m][i + 1];
        assert keys[i] == KeyOf(request[tmp]) && keys[i + 1] == KeyOf(request[next]);
        if (InOrder(KeyOf(request[tmp]), KeyOf(r)) || !InOrder(KeyOf(request[tmp]), KeyOf(request[next])))
           && InOrder(KeyOf(r), KeyOf(request[next])) {
          break;
        }
        tmp := next;
        i := i + 1;
      }
    }

    /** end_request: the request in service leaves its queue, its slot is free and its buffer
        unlocked; the others keep their places. */
    method EndRequest(m: int, uptodate: bool) returns (b: int)
      requires Valid() && 0 <= m < NR_BLK_DEV && |queues[m]| > 0
      modifies `request, `current, `buffers, `queues
      ensures Valid() && queues == Pop(old(queues), m)
      ensures 0 <= old(queues[m][0]) < |old(request)|
      ensures request == old(request)[old(queues[m][0]) := old(request)[old(queues[m][0])].(dev := -1)]
      ensures old(NoneLost(NULL)) ==> NoneLost(NULL)
      ensures b == old(request[queues[m][0]]).bh && 0 <= b < |old(buffers)| && b !in asking
      ensures buffers == old(buffers)[b := old(buffers)[b].(uptodate := uptodate, lock := false)]
    {
      hide Linked, Slots, Contents, Runs, RequestOk, Pop;
      QueueShape(request, current, queues, m);
      ghost var was, h := request, current[m];
      PopHead(request, current, queues, buffers, m);
      PopLinked(request, current, queues, buffers, m);
      PopSlots(request, current, queues, buffers, m);
      InRange(request, queues, buffers);
      RequestBuffer(request[h], h, m, buffers);
      var cur := current[m];
      b := request[cur].bh;
      buffers := buffers[b := buffers[b].(uptodate := uptodate)];
      buffers := buffers[b := buffers[b].(lock := false)];
      request := request[cur := request[cur].(dev := -1)];
      current := current[m := request[cur].next];
      PopOthers(was, queues, m, h, request);
      PopRuns(was, queues, m, request);
      OthersHave(was, old(queues), old(buffers), h, request);
      CleanBuffer(request, current, Pop(queues, m), old(buffers), b, buffers);
      queues := Pop(queues, m);
      assert forall p :: InUse(was, p) && p != h ==> InUse(request, p) && request[p].bh == was[p].bh;
      assert forall c :: c in asking ==> AskingOk(was, old(buffers), c, asking[c]) && c != b;
    }

    /** make_request up to the lock, for a task that finds the buffer unlocked or gives up. */
    method MakeRequest(rw: int, b: int) returns (out: Outcome, ghost slot: int, ghost place: int)
      requires Valid() && 0 <= b < |buffers| && buffers[b].dev >= 0 && 0 <= Major(buffers[b].dev) < NR_BLK_DEV && READ <= rw <= WRITEA
      modifies this
      ensures Valid() && (old(NoneLost(NULL)) ==> NoneLost(NULL))
      ensures out.AwaitBuffer? <==> old(buffers[b].lock) && rw < READA
      ensures out.AwaitBuffer? || old(buffers[b].lock) ==> unchanged(this)
      ensures out.AwaitSlot? ==> asking == old(asking)[b := rw] && queues == old(queues) && rw < READA
      ensures !old(buffers[b].lock) && !Needed(rw, old(buffers[b])) ==> out.Over? && slot < 0 && queues == old(queues) && buffers == old(buffers)
      ensures !old(buffers[b].lock) && Needed(rw, old(buffers[b])) ==>
        (slot < 0 <==> forall q :: 0 <= q < SlotLimit(Command(rw)) ==> InUse(old(request), q))
      ensures slot < 0 && !old(buffers[b].lock) && Needed(rw, old(buffers[b])) ==>
        (if rw >= READA then out.Over? && buffers == old(buffers) else out.AwaitSlot?) && queues == old(queues)
      ensures slot >= 0 ==> out.Over? && InUse(request, slot) && KeyOf(request[slot]) == Key(Command(rw), old(buffers)[b].dev, 2 * old(buffers)[b].block)
      ensures slot >= 0 ==> buffers == old(buffers)[b := old(buffers[b]).(lock := true, dirt := false)]
      ensures slot >= 0 ==> PlacedAt(old(request), old(queues), Major(old(buffers)[b].dev), place, KeyOf(request[slot]))
      ensures slot >= 0 ==> queues == Put(old(queues), Major(old(buffers)[b].dev), place, slot)
      ensures slot >= 0 ==> !InUse(old(request), slot) && OthersSame(old(request), request, slot) && request[slot].bh == b
      ensures slot < 0 ==> request == old(request) && current == old(current)
      ensures !old(buffers[b].lock) && Needed(rw, old(buffers[b])) && !out.AwaitSlot? ==> asking == old(asking) - {b}
      ensures !Needed(rw, old(buffers[b])) ==> asking == old(asking)
      ensures out.AwaitSlot? ==> buffers == old(buffers)[b := old(buffers[b]).(lock := true)]
    {
      hide Ok, PlacedAt, Put;
      var ahead := rw == READA || rw == WRITEA;
      var cmd := rw;
      if ahead {
        if buffers[b].lock { return Over, -1, -1; }
        cmd := if rw == READA then READ else WRITE;
      }
      if buffers[b].lock { return AwaitBuffer, -1, -1; }
      UnlockedUnqueued(request, current, queues, buffers, b);
      LockBuffer(b, true);
      if (cmd == WRITE && !buffers[b].dirt) || (cmd == READ && buffers[b].uptodate) {
        LockBuffer(b, false);
        assert buffers == old(buffers);
        return Over, -1, -1;
      }
      out, slot, place := QueueRequest(cmd, ahead, b);
      assert out.Over? && slot < 0 ==> buffers[b] == old(buffers[b]) && buffers == old(buffers);
    }

    /** Setting or clearing b_lock of a buffer that no request and no sleeper has. */
    method LockBuffer(b: int, lock: bool)
      requires Valid() && 0 <= b < |buffers| && Unqueued(request, b) && b !in asking
      modifies `buffers
      ensures Valid() && buffers == old(buffers)[b := old(buffers[b]).(lock := lock)]
    {
      hide Ok;
      CleanBuffer(request, current, queues, buffers, b, buffers[b := buffers[b].(lock := lock)]);
      buffers := buffers[b := buffers[b].(lock := lock)];
    }

    /** make_request from "repeat:" on, also after sleeping for a slot: a free slot, for writes
        among the first two thirds, is filled and queued. */
    method QueueRequest(cmd: int, ahead: bool, b: int) returns (out: Outcome, ghost slot: int, ghost place: int)
      requires Valid() && 0 <= b < |buffers| && buffers[b].lock && Unqueued(request, b) && (cmd == READ || cmd == WRITE)
      requires buffers[b].dev >= 0 && 0 <= Major(buffers[b].dev) < NR_BLK_DEV && (b in asking ==> !ahead)
      modifies this
      ensures Valid() && !out.AwaitBuffer?
      ensures old(NoneLost(b)) ==> NoneLost(NULL)
      ensures out.AwaitSlot? ==> !ahead && asking == old(asking)[b := cmd] && queues == old(queues) && buffers == old(buffers)
      ensures out.Over? ==> asking == old(asking) - {b}
      ensures slot >= 0 ==> out.Over? && slot < SlotLimit(cmd) && !InUse(old(request), slot) && InUse(request, slot)
      ensures slot >= 0 ==> KeyOf(request[slot]) == Key(cmd, old(buffers)[b].dev, 2 * old(buffers)[b].block) && request[slot].bh == b
      ensures slot >= 0 ==> PlacedAt(old(request), old(queues), Major(old(buffers)[b].dev), place, KeyOf(request[slot]))
      ensures slot >= 0 ==> queues == Put(old(queues), Major(old(buffers)[b].dev), place, slot)
      ensures slot >= 0 ==> buffers == old(buffers)[b := old(buffers[b]).(dirt := false)]
      ensures forall q :: slot < q < SlotLimit(cmd) ==> InUse(old(request), q)
      ensures slot < 0 ==> (if ahead then out.Over? else out.AwaitSlot?) && request == old(request) && current == old(current) && queues == old(queues)
      ensures slot < 0 && ahead ==> buffers == old(buffers)[b := old(buffers[b]).(lock := false)]
      ensures slot >= 0 ==> OthersSame(old(request), request, slot)
    {
      hide Ok, RequestOk, PlacedAt, PutRequest, Put;
      SlotCount(request, current, queues, buffers);
      var q := SlotLimit(cmd) - 1;
      while q >= 0 && request[q].dev >= 0
        invariant unchanged(this) && -1 <= q < SlotLimit(cmd)
        invariant forall p :: q < p < SlotLimit(cmd) ==> InUse(request, p)
      {
        q := q - 1;
      }
      if q < 0 {
        if ahead {
          LockBuffer(b, false);
          return Over, q, -1;
        }
        asking := asking[b := cmd];
        return AwaitSlot, q, -1;
      }
      asking := asking - {b};
      var r := Request(buffers[b].dev, cmd, 2 * buffers[b].block, b, NULL);
      GoodRequest(r, q, buffers);
      var started, i := AddRequest(Major(buffers[b].dev), q, r);
      return Over, q, i;
    }

    ghost function Now(): Layer
      reads this
    {
      Layer(request, current, queues, buffers, asking)
    }

    method OnAsk(rw: int, b: int) returns (ghost slot: int, ghost place: int)
      requires Valid() && NoneLost(NULL)
      modifies this
      ensures Valid() && NoneLost(NULL) && Asks(old(Now()), rw, b, slot, place, Now())
    {
      hide Ok, PlacedAt, Put;
      slot, place := -1, -1;
      if 0 <= b < |buffers| && buffers[b].dev >= 0 && 0 <= Major(buffers[b].dev) < NR_BLK_DEV && READ <= rw <= WRITEA {
        var out;
        out, slot, place := MakeRequest(rw, b);
      }
    }

    method OnRetry(b: int) returns (ghost slot: int, ghost place: int)
      requires Valid() && NoneLost(NULL)
      modifies this
      ensures Valid() && NoneLost(NULL) && Retries(old(Now()), b, slot, place, Now())
    {
      hide Ok, PlacedAt, Put;
      slot, place := -1, -1;
      if b in asking {
        assert AskingOk(request, buffers, b, asking[b]);
        ghost var was := asking;
        var out;
        out, slot, place := QueueRequest(asking[b], false, b);
        assert slot < 0 ==> asking == was;
      }
    }

    method OnComplete(m: int, uptodate: bool)
      requires Valid() && NoneLost(NULL)
      modifies this
      ensures Valid() && NoneLost(NULL) && Ends(old(Now()), m, uptodate, Now())
    {
      hide Ok, Pop;
      SlotCount(request, current, queues, buffers);
      if 0 <= m < NR_BLK_DEV {
        if current[m] != NULL {
          HeadIsQueued(request, current, queues, buffers, m);
          var b := EndRequest(m, uptodate);
        } else {
          HeadOfAny(request, current, queues, buffers, m);
        }
      }
    }

    /** Any run of requests, of sleepers trying again and of completions: each event does what
        Happens says, the queues and slots stay well formed, and no locked buffer is forgotten. */
    method Run(events: seq<Event>) returns (ghost trace: seq<Layer>, ghost slots: seq<int>, ghost places: seq<int>)
      requires Valid() && NoneLost(NULL)
      modifies this
      ensures Valid() && NoneLost(NULL)
      ensures |trace| == |events| + 1 && |slots| == |places| == |events| && trace[0] == old(Now()) && trace[|events|] == Now()
      ensures forall i :: 0 <= i < |events| ==> Happens(trace[i], events[i], slots[i], places[i], trace[i + 1])
    {
      hide Valid, NoneLost, Now, Asks, Retries, Ends;
      trace, slots, places := [Now()], [], [];
      var i := 0;
      while i < |events|
        invariant 0 <= i <= |events| && Valid() && NoneLost(NULL)
        invariant |trace| == i + 1 && |slots| == |places| == i && trace[0] == old(Now()) && trace[i] == Now()
        invariant forall j :: 0 <= j < i ==> Happens(trace[j], events[j], slots[j], places[j], trace[j + 1])
      {
        ghost var slot, place := -1, -1;
        match events[i] {
          case Ask(rw, b) => slot, place := OnAsk(rw, b);
          case Retry(b) => slot, place := OnRetry(b);
          case Complete(m, uptodate) => OnComplete(m, uptodate);
        }
        trace, slots, places := trace + [Now()], slots + [slot], places + [place];
        i := i + 1;
      }
    }
  }

  datatype Event = Ask(rw: int, b: int) | Retry(b: int) | Complete(m: int, uptodate: bool)

  lemma HeadOfAny(request: seq<Request>, current: seq<int>, queues: seq<seq<int>>, buffers: seq<Buffer>, m: int)
    requires Ok(request, current, queues, buffers) && 0 <= m < NR_BLK_DEV && |current| == |queues| == NR_BLK_DEV && current[m] == NULL
    ensures queues[m] == []
  {
  }

  lemma HeadIsQueued(request: seq<Request>, current: seq<int>, queues: seq<seq<int>>, buffers: seq<Buffer>, m: int)
    requires Ok(request, current, queues, buffers) && 0 <= m < NR_BLK_DEV
    ensures |current| == |queues| == NR_BLK_DEV && (current[m] != NULL ==> |queues[m]| > 0)
  {
  }

  ghost predicate AskingOk(request: seq<Request>, buffers: seq<Buffer>, b: int, cmd: int) {
    0 <= b < |buffers| && buffers[b].lock && buffers[b].dev >= 0 && 0 <= Major(buffers[b].dev) < NR_BLK_DEV &&
    (cmd == READ || cmd == WRITE) && Unqueued(request, b)
  }

  ghost predicate Unqueued(request: seq<Request>, b: int) {
    forall q :: InUse(request, q) ==> request[q].bh != b
  }

  /** A locked buffer stays locked while its request is queued, so an unlocked one has none. */
  lemma UnlockedUnqueued(request: seq<Request>, current: seq<int>, queues: seq<seq<int>>, buffers: seq<Buffer>, b: int)
    requires Ok(request, current, queues, buffers) && 0 <= b < |buffers| && !buffers[b].lock
    ensures Unqueued(request, b)
  {
    forall q | InUse(request, q) ensures request[q].bh != b {
      assert Queued(queues, q);
      var m, k :| In(queues, m, k) && queues[m][k] == q;
      assert RequestOk(request[queues[m][k]], queues[m][k], m, buffers);
    }
  }

  lemma SlotCount(request: seq<Request>, current: seq<int>, queues: seq<seq<int>>, buffers: seq<Buffer>)
    requires Ok(request, current, queues, buffers)
    ensures |request| == NR_REQUEST && |queues| == |current| == NR_BLK_DEV
  {
  }

  lemma GoodRequest(r: Request, q: int, buffers: seq<Buffer>)
    requires 0 <= r.bh < |buffers| && buffers[r.bh].lock && r.dev == buffers[r.bh].dev >= 0 && r.sector == 2 * buffers[r.bh].block
    requires (r.cmd == READ || r.cmd == WRITE) && (r.cmd == WRITE ==> q < NR_REQUEST * 2 / 3)
    ensures RequestOk(r, q, Major(r.dev), buffers)
  {
  }

  lemma PopOthers(request: seq<Request>, queues: seq<seq<int>>, m: int, h: int, s: seq<Request>)
    requires 0 <= m < |queues| && |queues[m]| > 0 && 0 <= h < |request| && s == request[h := request[h].(dev := -1)]
    requires forall n, k :: In(queues, n, k) ==> 0 <= queues[n][k] < |request|
    requires forall n, k :: In(Pop(queues, m), n, k) ==> Pop(queues, m)[n][k] != h
    ensures forall n, k :: In(Pop(queues, m), n, k) && 0 <= Pop(queues, m)[n][k] < |s| ==>
      s[Pop(queues, m)[n][k]] == request[Pop(queues, m)[n][k]]
  {
  }

  lemma OthersHave(request: seq<Request>, queues: seq<seq<int>>, buffers: seq<Buffer>, h: int, s: seq<Request>)
    requires Contents(request, queues, buffers) && InUse(request, h) && s == request[h := request[h].(dev := -1)]
    ensures Unqueued(s, request[h].bh) && forall b :: Unqueued(request, b) ==> Unqueued(s, b)
  {
    assert forall q :: InUse(s, q) ==> InUse(request, q) && q != h;
  }

  lemma RequestBuffer(r: Request, q: int, m: int, buffers: seq<Buffer>)
    requires RequestOk(r, q, m, buffers)
    ensures 0 <= r.bh < |buffers| && r.dev >= 0
  {
  }

  lemma CleanRequest(r: Request, q: int, m: int, buffers: seq<Buffer>, after: seq<Buffer>)
    requires RequestOk(r, q, m, buffers) && |after| == |buffers| && after[r.bh] == buffers[r.bh].(dirt := after[r.bh].dirt)
    ensures RequestOk(r, q, m, after)
  {
  }

  lemma PutOthers(request: seq<Request>, queue: seq<int>, i: int, q: int, r: Request)
    requires 0 <= q < |request| && -1 <= i < |queue| && (i >= 0 ==> 0 <= queue[i] < |request| && queue[i] != q)
    ensures var s := PutRequest(request, queue, i, q, r);
      forall p :: 0 <= p < |s| ==> s[p] == (if p == q then r else request[p]).(next := s[p].next)
  {
  }

  lemma CleanBuffer(request: seq<Request>, current: seq<int>, queues: seq<seq<int>>, buffers: seq<Buffer>, b: int, after: seq<Buffer>)
    requires Ok(request, current, queues, buffers) && 0 <= b < |buffers| == |after| && after == buffers[b := after[b]]
    requires after[b].dev == buffers[b].dev && after[b].block == buffers[b].block
    requires after[b].lock == buffers[b].lock || Unqueued(request, b)
    ensures Ok(request, current, queues, after)
  {
    forall m, k | In(queues, m, k) ensures RequestOk(request[queues[m][k]], queues[m][k], m, after) {
      assert Queued(queues, queues[m][k]);
      assert InUse(request, queues[m][k]);
      assert RequestOk(request[queues[m][k]], queues[m][k], m, buffers);
    }
  }

  lemma QueueShape(request: seq<Request>, current: seq<int>, queues: seq<seq<int>>, m: int)
    requires Linked(request, current, queues) && 0 <= m < NR_BLK_DEV
    ensures |request| == NR_REQUEST && |current| == |queues| == NR_BLK_DEV && current[m] == First(queues[m])
    ensures forall k :: 0 <= k < |queues[m]| ==> 0 <= queues[m][k] < NR_REQUEST && request[queues[m][k]].next == Next(queues[m], k)
  {
    assert forall k :: 0 <= k < |queues[m]| ==> In(queues, m, k);
  }

  lemma InRange(request: seq<Request>, queues: seq<seq<int>>, buffers: seq<Buffer>)
    requires Contents(request, queues, buffers)
    ensures forall n, k :: In(queues, n, k) ==> 0 <= queues[n][k] < |request|
  {
  }

  lemma PutKeeps(request: seq<Request>, current: seq<int>, queues: seq<seq<int>>, buffers: seq<Buffer>, m: int, i: int, q: int, r: Request)
    requires Ok(request, current, queues, buffers) && 0 <= m < NR_BLK_DEV && -1 <= i < |queues[m]| && 0 <= q < NR_REQUEST && !InUse(request, q)
    requires RequestOk(r, q, m, buffers) && Unqueued(request, r.bh) && (i < 0 <==> queues[m] == [])
    requires forall k :: 0 <= k < |queues[m]| ==> 0 <= queues[m][k] < |request|
    requires i >= 0 ==> Stops(Keys(request, queues[m]), KeyOf(r), i)
    ensures i >= 0 ==> 0 <= queues[m][i] < NR_REQUEST && queues[m][i] != q
    ensures Ok(PutRequest(request, queues[m], i, q, r), if i < 0 then current[m := q] else current, Put(queues, m, i, q), buffers)
  {
    hide Linked, Slots, Contents, Runs, Put;
    QueueShape(request, current, queues, m);
    PutLinked(request, current, queues, m, i, q, r);
    NotQueued(request, queues, q);
    InRange(request, queues, buffers);
    KeysDistinct(request, queues, buffers, m, r, q);
    var s := PutRequest(request, queues[m], i, q, r);
    PutSlots(request, queues, m, i, q, s);
    PutContents(request, queues, buffers, m, i, q, r, s);
    PutRuns(request, queues, m, i, q, r, s);
  }
}

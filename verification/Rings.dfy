/**
 Ring buffers with a head where bytes go in and a tail where they come out, as pipes and
 terminal queues use them (include/linux/fs.h, include/linux/tty.h).  One place stays free.
 */
module Rings {

  predicate RingOk(n: int, head: int, tail: int) {
    0 < n && 0 <= head < n && 0 <= tail < n
  }

  /** (head - tail) & (n - 1) */
  function Count(n: int, head: int, tail: int): (c: int)
    requires RingOk(n, head, tail)
    ensures 0 <= c < n && (c == 0 <==> head == tail) && c == if head >= tail then head - tail else head - tail + n
  {
    Wrapped(n, head - tail);
    (head - tail) % n
  }

  lemma Wrapped(n: int, d: int)
    requires 0 < n && -n < d < n
    ensures d % n == if d >= 0 then d else d + n
  {
    if d < 0 { assert (d + n) % n == d + n; }
  }

  /** Place k behind the tail. */
  function Place(n: int, tail: int, k: int): int {
    if tail + k >= n then tail + k - n else tail + k
  }

  /** What is in the ring, oldest first. */
  function Contents(buf: seq<int>, head: int, tail: int): (s: seq<int>)
    requires RingOk(|buf|, head, tail)
    ensures |s| == Count(|buf|, head, tail)
    ensures forall k :: 0 <= k < |s| ==> 0 <= Place(|buf|, tail, k) < |buf| && s[k] == buf[Place(|buf|, tail, k)]
  {
    seq(Count(|buf|, head, tail), k requires 0 <= k < Count(|buf|, head, tail) => buf[Place(|buf|, tail, k)])
  }

  /** Bytes written at the head, up to the end of the buffer at most. */
  lemma Appended(buf: seq<int>, head: int, tail: int, data: seq<int>, after: seq<int>, next: int)
    requires RingOk(|buf|, head, tail) && |after| == |buf| && head + |data| <= |buf| && Count(|buf|, head, tail) + |data| < |buf|
    requires forall k :: 0 <= k < |buf| && !(head <= k < head + |data|) ==> after[k] == buf[k]
    requires forall k :: 0 <= k < |data| ==> after[head + k] == data[k]
    requires next == if head + |data| == |buf| then 0 else head + |data|
    ensures RingOk(|buf|, next, tail) && Contents(after, next, tail) == Contents(buf, head, tail) + data
  {
    var n, c := |buf|, Count(|buf|, head, tail);
    var s, t := Contents(after, next, tail), Contents(buf, head, tail) + data;
    forall k | 0 <= k < |t| ensures s[k] == t[k] {
      var p := Place(n, tail, k);
      if k >= c { assert p == head + (k - c); }
    }
  }

  /** Bytes taken at the tail, up to the end of the buffer at most. */
  lemma Taken(buf: seq<int>, head: int, tail: int, n: int, next: int)
    requires RingOk(|buf|, head, tail) && 0 <= n <= Count(|buf|, head, tail) && tail + n <= |buf|
    requires next == if tail + n == |buf| then 0 else tail + n
    ensures RingOk(|buf|, head, next) && Contents(buf, head, next) == Contents(buf, head, tail)[n..]
    ensures buf[tail..tail + n] == Contents(buf, head, tail)[..n]
  {
    var s, t := Contents(buf, head, next), Contents(buf, head, tail)[n..];
    forall k | 0 <= k < |t| ensures s[k] == t[k] {
      assert t[k] == Contents(buf, head, tail)[n + k];
    }
  }

  /** Stepping the head back drops the newest byte. */
  lemma Dropped(buf: seq<int>, head: int, tail: int, next: int)
    requires RingOk(|buf|, head, tail) && head != tail && next == if head == 0 then |buf| - 1 else head - 1
    ensures RingOk(|buf|, next, tail)
    ensures var s := Contents(buf, head, tail); |s| > 0 && buf[next] == s[|s| - 1] && Contents(buf, next, tail) == s[..|s| - 1]
  {
    var s := Contents(buf, head, tail);
    assert Place(|buf|, tail, |s| - 1) == next;
    assert Contents(buf, next, tail) == s[..|s| - 1];
  }
}

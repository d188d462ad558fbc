/**
 read_pipe and write_pipe of fs/pipe.c: one page used as a ring by any number of readers and
 writers, which are interrupted only where they sleep.
 */
module Pipes {
  import opened Rings

  const PAGE_SIZE: int := 4096

  /** A call that sleeps in the pipe, or is about to start, or has returned. */
  datatype Call = Reading(left: int, got: seq<int>, ended: bool) | Writing(data: seq<int>, written: int, ended: bool)

  /** Call t goes on, or the other end of the pipe is closed. */
  datatype Event = Turn(t: int) | Closes

  class Pipe {
    const page: array<int>             // the page at i_size
    var head: int                      // i_zone[0]
    var tail: int                      // i_zone[1]
    var users: int                     // i_count: 2 while both ends are open
    ghost var wrote: seq<int>          // every byte ever put in
    ghost var gave: seq<int>           // every byte ever taken out

    ghost predicate Shape()
      reads this
    {
      page.Length == PAGE_SIZE && RingOk(PAGE_SIZE, head, tail)
    }

    ghost function Bytes(): seq<int>
      requires Shape()
      reads this, page
    {
      Contents(page[..], head, tail)
    }

    /** First in, first out: what was taken is the start of what was put in, and the rest is the
        ring's content, which never fills the page. */
    ghost predicate Valid()
      reads this, page
    {
      Shape() && wrote == gave + Bytes() && |Bytes()| <= PAGE_SIZE - 1
    }

    constructor ()
      ensures Valid() && wrote == [] && gave == [] && users == 2 && fresh(page)
    {
      page := new int[PAGE_SIZE];
      head, tail, users := 0, 0, 2;
      wrote, gave := [], [];
      new;
      assert Bytes() == [];
    }

    /** PIPE_SIZE */
    method Size() returns (n: int)
      requires Shape()
      ensures n == |Bytes()|
    {
      n := (head - tail) % PAGE_SIZE;
    }

    /** The copy at the tail, which does not reach past the end of the page. */
    method GetBytes(chars: int) returns (more: seq<int>)
      requires Valid() && 0 <= chars <= |Bytes()| && tail + chars <= PAGE_SIZE
      modifies `tail, `gave
      ensures Valid() && gave == old(gave) + more && |more| == chars && old(Bytes()) == more + Bytes()
    {
      hide Contents, Count, Place;
      var size := tail;
      var next := if tail + chars == PAGE_SIZE then 0 else tail + chars;
      Taken(page[..], head, tail, chars, next);
      ghost var before := Bytes();
      tail := next;
      more := page[size..size + chars];
      assert page[size..size + chars] == page[..][size..size + chars];
      assert before == before[..chars] + before[chars..];
      Regroup(gave, more, Bytes());
      gave := gave + more;
    }

    /** read_pipe until it returns or has to sleep: it takes as many of the oldest bytes as are
        wanted and there. */
    method Read(count: int) returns (done: bool, got: seq<int>)
      requires Valid() && 0 <= count
      modifies `tail, `gave
      ensures Valid() && wrote == old(wrote) && gave == old(gave) + got && old(Bytes()) == got + Bytes()
      ensures |got| == (if count < |old(Bytes())| then count else |old(Bytes())|)
      ensures done <==> |got| == count || users != 2
    {
      hide Contents, Count, Place;
      var left := count;
      got := [];
      while left > 0
        invariant Valid() && left + |got| == count && 0 <= left && users == old(users)
        invariant wrote == old(wrote) && gave == old(gave) + got && old(Bytes()) == got + Bytes()
        decreases left
      {
        var size := Size();
        if size == 0 {
          if users != 2 { return true, got; }
          return false, got;
        }
        var chars := PAGE_SIZE - tail;
        if chars > left { chars := left; }
        if chars > size { chars := size; }
        assert chars > 0;
        left := left - chars;
        var more := GetBytes(chars);
        Regroup(old(gave), got, more);
        Regroup(got, more, Bytes());
        got := got + more;
      }
      done := true;
    }

    /** The copy at the head, which does not reach past the end of the page. */
    method PutBytes(more: seq<int>)
      requires Valid() && head + |more| <= PAGE_SIZE && |Bytes()| + |more| <= PAGE_SIZE - 1
      modifies `head, page, `wrote
      ensures Valid() && wrote == old(wrote) + more && Bytes() == old(Bytes()) + more
    {
      hide Contents, Count, Place;
      ghost var before := page[..];
      var size := head;
      var next := if head + |more| == PAGE_SIZE then 0 else head + |more|;
      ghost var was := Bytes();
      forall k | 0 <= k < |more| { page[size + k] := more[k]; }
      Appended(before, head, tail, more, page[..], next);
      Regroup(gave, was, more);
      head := next;
      wrote := wrote + more;
    }

    /** write_pipe until it returns or has to sleep: as many bytes as there is room for go behind
        those in the pipe; without readers a full pipe ends the call with SIGPIPE. */
    method Write(data: seq<int>) returns (done: bool, written: int, sigpipe: bool)
      requires Valid()
      modifies `head, page, `wrote
      ensures Valid() && 0 <= written <= |data| && gave == old(gave) && wrote == old(wrote) + data[..written]
      ensures Bytes() == old(Bytes()) + data[..written]
      ensures var room := PAGE_SIZE - 1 - |old(Bytes())|; written == if |data| < room then |data| else room
      ensures done <==> written == |data| || users != 2
      ensures sigpipe <==> written < |data| && users != 2
    {
      hide Contents, Count, Place;
      written := 0;
      var left := |data|;
      assert wrote == wrote + data[..0];
      while left > 0
        invariant Valid() && 0 <= written <= |data| && left == |data| - written && users == old(users) && unchanged(`tail)
        invariant gave == old(gave) && wrote == old(wrote) + data[..written] && |Bytes()| == |old(Bytes())| + written
        decreases left
      {
        var size := Size();
        size := PAGE_SIZE - 1 - size;
        if size == 0 {
          Cancel(gave, old(Bytes()), data[..written], Bytes());
          if users != 2 { return true, written, true; }
          return false, written, false;
        }
        var chars := PAGE_SIZE - head;
        if chars > left { chars := left; }
        if chars > size { chars := size; }
        assert chars > 0;
        left := left - chars;
        assert data[..written] + data[written..written + chars] == data[..written + chars];
        PutBytes(data[written..written + chars]);
        written := written + chars;
      }
      Cancel(gave, old(Bytes()), data[..written], Bytes());
      assert data[..written] == data;
      done, sigpipe := true, false;
    }

    method TakeTurn(c: Call) returns (d: Call)
      requires Valid() && CallOk(c)
      modifies `head, `tail, page, `wrote, `gave
      ensures Valid() && CallOk(d) && old(wrote) <= wrote && old(gave) <= gave
      ensures (Bytes(), d) == Served(old(Bytes()), c, users)
    {
      hide Contents, Count, Place;
      if c.ended { return c; }
      match c
      case Reading(left, got, _) =>
        var done, more := Read(left);
        d := Reading(left - |more|, got + more, done);
      case Writing(data, written, _) =>
        var done, n, sigpipe := Write(data[written..]);
        assert data[written..][..n] == data[written..written + n];
        d := Writing(data, written + n, done);
    }

    /** The calls in progress take turns in any order, and an end may be closed at any time: the
        pipe is the queue of the reference, whoever reads gets what it would get there, and
        nothing is lost or put out of order. */
    method Run(calls: map<int, Call>, events: seq<Event>) returns (after: map<int, Call>)
      requires Valid() && forall t :: t in calls ==> CallOk(calls[t])
      modifies this, page
      ensures Valid() && old(wrote) <= wrote && old(gave) <= gave && gave <= wrote
      ensures State(Bytes(), users, after) == Runs(State(old(Bytes()), old(users), calls), events)
    {
      hide Contents, Count, Place, Served, CallOk;
      after := calls;
      var i := 0;
      while i < |events|
        invariant 0 <= i <= |events| && Valid() && old(wrote) <= wrote && old(gave) <= gave
        invariant forall t :: t in after ==> CallOk(after[t])
        invariant State(Bytes(), users, after) == Runs(State(old(Bytes()), old(users), calls), events[..i])
      {
        assert events[..i + 1][..i] == events[..i];
        match events[i] {
          case Turn(t) =>
            if t in after {
              var c := TakeTurn(after[t]);
              after := after[t := c];
            }
          case Closes => users := 1;
        }
        i := i + 1;
      }
      assert events[..i] == events;
    }
  }

  // ----- the reference: a queue that holds less than a page

  datatype State = State(q: seq<int>, users: int, calls: map<int, Call>)

  ghost predicate StateOk(s: State) {
    |s.q| < PAGE_SIZE && forall t :: t in s.calls ==> CallOk(s.calls[t])
  }

  /** One turn of a call: it ends when it has all it wants, or cannot wait for more. */
  function Served(q: seq<int>, c: Call, users: int): (seq<int>, Call)
    requires CallOk(c) && |q| < PAGE_SIZE
  {
    if c.ended then (q, c)
    else
      match c
      case Reading(left, got, _) =>
        var n := if left < |q| then left else |q|;
        (q[n..], Reading(left - n, got + q[..n], n == left || users != 2))
      case Writing(data, written, _) =>
        var room := PAGE_SIZE - 1 - |q|;
        var n := if |data| - written < room then |data| - written else room;
        (q + data[written..written + n], Writing(data, written + n, n == |data| - written || users != 2))
  }

  ghost function Next(s: State, e: Event): (r: State)
    requires StateOk(s)
    ensures StateOk(r) && r.calls.Keys == s.calls.Keys
  {
    match e
    case Turn(t) =>
      if t in s.calls then s.(q := Served(s.q, s.calls[t], s.users).0, calls := s.calls[t := Served(s.q, s.calls[t], s.users).1]) else s
    case Closes => s.(users := 1)
  }

  ghost function Runs(s: State, events: seq<Event>): (r: State)
    requires StateOk(s)
    ensures StateOk(r) && r.calls.Keys == s.calls.Keys
  {
    if events == [] then s else Next(Runs(s, events[..|events| - 1]), events[|events| - 1])
  }

  /** In the reference each reader only gains bytes, each writer only gets rid of some, and a call
      that has returned stays as it is. */
  lemma {:induction false} TurnsContinue(s: State, events: seq<Event>, t: int)
    requires StateOk(s) && t in s.calls
    ensures t in Runs(s, events).calls && Continues(s.calls[t], Runs(s, events).calls[t])
  {
    if events != [] { TurnsContinue(s, events[..|events| - 1], t); }
  }

  lemma Cancel(a: seq<int>, b: seq<int>, c: seq<int>, d: seq<int>)
    requires (a + b) + c == a + d
    ensures d == b + c
  {
    assert (a + b) + c == a + (b + c);
    assert (a + d)[|a|..] == d && (a + (b + c))[|a|..] == b + c;
  }

  lemma Regroup(a: seq<int>, b: seq<int>, c: seq<int>)
    ensures (a + b) + c == a + (b + c)
  {
  }

  predicate CallOk(c: Call) {
    match c
    case Reading(left, _, _) => 0 <= left
    case Writing(data, written, _) => 0 <= written <= |data|
  }

  predicate Continues(a: Call, b: Call) {
    (a.ended ==> b == a) &&
    match a
    case Reading(left, got, _) => b.Reading? && got <= b.got && left + |got| == b.left + |b.got|
    case Writing(data, written, _) => b.Writing? && b.data == data && written <= b.written
  }
}

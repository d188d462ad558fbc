/**
 Terminal input of kernel/chr_drv/tty_io.c: copy_to_cooked edits lines from the read queue into
 the secondary queue, tty_read takes characters from there.  Characters are signed, control
 characters of termios are unsigned, and termios does not change.
 */
module Terminals {
  import opened Rings

  const BUF_SIZE: int := 1024
  const NL: int := 10
  const CR: int := 13

  datatype Termios = Termios(crnl: bool, nocr: bool, nlcr: bool, uclc: bool, canon: bool, isig: bool,
                             intr: int, quit: int, erase: int, kill: int, eof: int, start: int, stop: int)

  predicate IsLineEnd(io: Termios, c: int) {
    c == NL || c == io.eof
  }

  function Lines(io: Termios, s: seq<int>): nat {
    if s == [] then 0 else Lines(io, s[..|s| - 1]) + if IsLineEnd(io, s[|s| - 1]) then 1 else 0
  }

  lemma {:induction false} LinesConcat(io: Termios, a: seq<int>, b: seq<int>)
    ensures Lines(io, a + b) == Lines(io, a) + Lines(io, b)
  {
    if b == [] {
      assert a + b == a;
    } else {
      assert (a + b)[..|a + b| - 1] == a + b[..|b| - 1];
      LinesConcat(io, a, b[..|b| - 1]);
    }
  }

  lemma LinesFirst(io: Termios, s: seq<int>)
    requires s != []
    ensures Lines(io, s) == (if IsLineEnd(io, s[0]) then 1 else 0) + Lines(io, s[1..])
  {
    LinesConcat(io, [s[0]], s[1..]);
    assert s == [s[0]] + s[1..] && [s[0]][..0] == [];
  }

  // ----- line editing as a pure function

  /** What the input modes make of a character; none if it is dropped. */
  datatype Mapped = Ignored | Char(c: int)

  function ToLower(c: int): int {
    if 65 <= c <= 90 then c + 32 else c
  }

  function Map(io: Termios, c: int): Mapped {
    if c == CR && !io.crnl && io.nocr then Ignored
    else
      var d := if c == CR && io.crnl then NL else if c == NL && io.nlcr then CR else c;
      Char(if io.uclc then ToLower(d) else d)
  }

  /** The rest of the queue when the open line is killed. */
  function Killed(io: Termios, q: seq<int>): seq<int> {
    if q == [] || IsLineEnd(io, q[|q| - 1]) then q else Killed(io, q[..|q| - 1])
  }

  function Erased(io: Termios, q: seq<int>): seq<int> {
    if q == [] || IsLineEnd(io, q[|q| - 1]) then q else q[..|q| - 1]
  }

  /** One character of input, with the control characters of canonical mode and the signals. */
  function Edit(io: Termios, q: seq<int>, raw: int): seq<int> {
    match Map(io, raw)
    case Ignored => q
    case Char(c) =>
      if io.canon && c == io.kill then Killed(io, q)
      else if io.canon && c == io.erase then Erased(io, q)
      else if io.canon && (c == io.stop || c == io.start) then q
      else if io.isig && (c == io.intr || c == io.quit) then q
      else q + [c]
  }

  /** The STOP and START characters of canonical mode halt and resume output. */
  function Flow(io: Termios, stopped: bool, raw: int): bool {
    match Map(io, raw)
    case Ignored => stopped
    case Char(c) =>
      if !io.canon || c == io.kill || c == io.erase then stopped
      else if c == io.stop then true
      else if c == io.start then false
      else stopped
  }

  function FlowAll(io: Termios, stopped: bool, input: seq<int>): bool {
    if input == [] then stopped else Flow(io, FlowAll(io, stopped, input[..|input| - 1]), input[|input| - 1])
  }

  function EditAll(io: Termios, q: seq<int>, input: seq<int>): seq<int> {
    if input == [] then q else Edit(io, EditAll(io, q, input[..|input| - 1]), input[|input| - 1])
  }

  /** Killing and erasing stop at a line end: no finished line is lost. */
  lemma {:induction false} KilledKeepsLines(io: Termios, q: seq<int>)
    ensures Killed(io, q) <= q && Lines(io, Killed(io, q)) == Lines(io, q)
    ensures Killed(io, q) == [] || IsLineEnd(io, Killed(io, q)[|Killed(io, q)| - 1])
    ensures forall k :: |Killed(io, q)| <= k < |q| ==> !IsLineEnd(io, q[k])
  {
    if q != [] && !IsLineEnd(io, q[|q| - 1]) { KilledKeepsLines(io, q[..|q| - 1]); }
  }

  /** Edit never takes away a line end. */
  lemma EditLines(io: Termios, q: seq<int>, raw: int)
    ensures Lines(io, Edit(io, q, raw)) >= Lines(io, q)
  {
    KilledKeepsLines(io, q);
    match Map(io, raw)
    case Ignored =>
    case Char(c) => LinesConcat(io, q, [c]);
  }

  // ----- what a user sees of it

  /** Text that no input mode and no control character of canonical mode touches. */
  predicate Plain(io: Termios, c: int) {
    && c != CR && c != NL && !(io.uclc && 65 <= c <= 90)
    && c !in {io.erase, io.kill, io.eof, io.start, io.stop, io.intr, io.quit}
  }

  /** Typed text is queued as it is. */
  lemma {:induction false} TextIsQueued(io: Termios, q: seq<int>, s: seq<int>)
    requires forall k :: 0 <= k < |s| ==> Plain(io, s[k])
    ensures EditAll(io, q, s) == q + s
  {
    if s == [] {
      assert q + s == q;
    } else {
      TextIsQueued(io, q, s[..|s| - 1]);
      assert q + s == (q + s[..|s| - 1]) + [s[|s| - 1]];
    }
  }

  function Times(c: int, n: nat): (s: seq<int>)
    ensures |s| == n && forall k :: 0 <= k < n ==> s[k] == c
  {
    if n == 0 then [] else Times(c, n - 1) + [c]
  }

  /** The erase and kill characters mean themselves in canonical mode. */
  predicate EditsLines(io: Termios) {
    && io.canon && io.erase != io.kill && Map(io, io.erase) == Char(io.erase) && Map(io, io.kill) == Char(io.kill)
  }

  /** As many erase characters as characters typed take the text back. */
  lemma {:induction false} ErasedAgain(io: Termios, q: seq<int>, s: seq<int>)
    requires EditsLines(io) && forall k :: 0 <= k < |s| ==> Plain(io, s[k])
    ensures EditAll(io, q + s, Times(io.erase, |s|)) == q
    decreases |s|
  {
    var e := Times(io.erase, |s|);
    if s == [] {
      assert q + s == q;
    } else {
      var n := |s| - 1;
      assert e == [io.erase] + Times(io.erase, n) by { assert forall k :: 0 <= k < |e| ==> e[k] == io.erase; }
      EditAllFirst(io, q + s, io.erase, Times(io.erase, n));
      assert (q + s)[|q + s| - 1] == s[n] && (q + s)[..|q + s| - 1] == q + s[..n];
      ErasedAgain(io, q, s[..n]);
    }
  }

  /** The kill character takes the whole open line back and nothing of the lines before. */
  lemma {:induction false} KilledAgain(io: Termios, q: seq<int>, s: seq<int>)
    requires EditsLines(io) && (forall k :: 0 <= k < |s| ==> Plain(io, s[k])) && (q == [] || IsLineEnd(io, q[|q| - 1]))
    ensures Edit(io, q + s, io.kill) == q
    decreases |s|
  {
    if s == [] {
      assert q + s == q;
    } else {
      var n := |s| - 1;
      assert (q + s)[|q + s| - 1] == s[n] && (q + s)[..|q + s| - 1] == q + s[..n];
      KilledAgain(io, q, s[..n]);
    }
  }

  /** What the input modes do to the ends of lines: with ICRNL a carriage return is a newline, else
      with IGNCR it is dropped; with INLCR a newline is a carriage return. */
  lemma LineEnds(io: Termios, q: seq<int>)
    requires NL !in {io.erase, io.kill, io.start, io.stop, io.intr, io.quit} && CR !in {io.erase, io.kill, io.start, io.stop, io.intr, io.quit}
    ensures Edit(io, q, CR) == if io.crnl then q + [10] else if io.nocr then q else q + [13]
    ensures Edit(io, q, NL) == if io.nlcr then q + [13] else q + [10]
  {
  }

  // ----- editing with a reader: what was read cannot be edited any more

  /** Whether a character would edit beyond the queue, into what was read already. */
  predicate Reaches(io: Termios, taken: seq<int>, q: seq<int>, raw: int) {
    && taken != [] && !IsLineEnd(io, taken[|taken| - 1]) && io.canon && Map(io, raw).Char?
    && ((Map(io, raw).c == io.kill && Killed(io, q) == []) || (Map(io, raw).c == io.erase && Map(io, raw).c != io.kill && q == []))
  }

  lemma {:induction false} KilledSplit(io: Termios, taken: seq<int>, q: seq<int>)
    ensures Killed(io, taken + q) == if Killed(io, q) == [] then Killed(io, taken) else taken + Killed(io, q)
  {
    if q == [] {
      assert taken + q == taken;
    } else {
      var s := taken + q;
      assert s[|s| - 1] == q[|q| - 1];
      if !IsLineEnd(io, q[|q| - 1]) {
        assert s[..|s| - 1] == taken + q[..|q| - 1];
        KilledSplit(io, taken, q[..|q| - 1]);
      }
    }
  }

  /** Editing the queue is editing the whole stream of characters exactly when erase or kill does
      not reach into a line of which a part has been read. */
  lemma EditIsStreamEdit(io: Termios, taken: seq<int>, q: seq<int>, raw: int)
    ensures taken + Edit(io, q, raw) == Edit(io, taken + q, raw) <==> !Reaches(io, taken, q, raw)
  {
    KilledSplit(io, taken, q);
    KilledKeepsLines(io, q);
    KilledKeepsLines(io, taken);
    match Map(io, raw)
    case Ignored =>
    case Char(c) =>
      assert (taken + q) + [c] == taken + (q + [c]);
      if q != [] {
        assert (taken + q)[|taken + q| - 1] == q[|q| - 1];
        assert (taken + q)[..|taken + q| - 1] == taken + q[..|q| - 1];
      } else {
        assert taken + q == taken;
      }
      if taken != [] && !IsLineEnd(io, taken[|taken| - 1]) { assert Killed(io, taken) != taken; }
  }

  // ----- the terminal without rings, and what each event does to it

  /** Besides the two queues: all characters cooked and all characters read so far, and whether
      no erase or kill has reached into a line of which a part had been read. */
  datatype Line = Line(raw: seq<int>, queue: seq<int>, stopped: bool, input: seq<int>, taken: seq<int>, untouched: bool)

  function CookedOne(io: Termios, l: Line): Line
    requires l.raw != []
  {
    Line(l.raw[1..], Edit(io, l.queue, l.raw[0]), Flow(io, l.stopped, l.raw[0]),
         l.input + [l.raw[0]], l.taken, l.untouched && !Reaches(io, l.taken, l.queue, l.raw[0]))
  }

  /** copy_to_cooked goes on until there is no more input or the queue is full. */
  function Cooked(io: Termios, l: Line): Line
    decreases |l.raw|
  {
    if l.raw == [] || |l.queue| == BUF_SIZE - 1 then l else Cooked(io, CookedOne(io, l))
  }

  /** The consumed characters have been edited into the queue one after the other. */
  lemma {:induction false} CookedConsumes(io: Termios, l: Line) returns (consumed: seq<int>)
    ensures var m := Cooked(io, l);
      && l.raw == consumed + m.raw && m.input == l.input + consumed
      && m.queue == EditAll(io, l.queue, consumed) && m.stopped == FlowAll(io, l.stopped, consumed)
      && (m.raw == [] || |m.queue| == BUF_SIZE - 1)
    decreases |l.raw|
  {
    hide Edit, Flow, Reaches;
    if l.raw == [] || |l.queue| == BUF_SIZE - 1 {
      consumed := [];
    } else {
      var rest := CookedConsumes(io, CookedOne(io, l));
      consumed := [l.raw[0]] + rest;
      EditAllFirst(io, l.queue, l.raw[0], rest);
      FlowAllFirst(io, l.stopped, l.raw[0], rest);
      assert (l.input + [l.raw[0]]) + rest == l.input + consumed;
    }
  }

  lemma {:induction false} EditAllFirst(io: Termios, q: seq<int>, raw: int, rest: seq<int>)
    ensures EditAll(io, q, [raw] + rest) == EditAll(io, Edit(io, q, raw), rest)
  {
    hide Edit;
    if rest == [] {
      EditAllNext(io, q, [], raw);
    } else {
      var front, last := rest[..|rest| - 1], rest[|rest| - 1];
      EditAllFirst(io, q, raw, front);
      assert [raw] + rest == ([raw] + front) + [last];
      EditAllNext(io, q, [raw] + front, last);
    }
  }

  lemma {:induction false} FlowAllFirst(io: Termios, stopped: bool, raw: int, rest: seq<int>)
    ensures FlowAll(io, stopped, [raw] + rest) == FlowAll(io, Flow(io, stopped, raw), rest)
  {
    hide Flow;
    if rest == [] {
      FlowAllNext(io, stopped, [], raw);
    } else {
      var front, last := rest[..|rest| - 1], rest[|rest| - 1];
      FlowAllFirst(io, stopped, raw, front);
      assert [raw] + rest == ([raw] + front) + [last];
      FlowAllNext(io, stopped, [raw] + front, last);
    }
  }

  /** A read of nr characters: what it gets, and what stays queued. */
  function Take(io: Termios, q: seq<int>, nr: int): (seq<int>, seq<int>) {
    if nr <= 0 || q == [] then ([], q)
    else if io.canon && q[0] == io.eof then ([], q[1..])
    else var t := Take(io, q[1..], nr - 1); ([q[0]] + t.0, t.1)
  }

  /** tty_read waits while there is nothing, or in canonical mode no line and still room. */
  predicate Waits(io: Termios, q: seq<int>) {
    q == [] || (io.canon && Lines(io, q) == 0 && BUF_SIZE - 1 - |q| > 20)
  }

  function AfterRead(l: Line, rest: seq<int>): Line {
    l.(queue := rest, taken := l.taken + l.queue[..if |rest| <= |l.queue| then |l.queue| - |rest| else 0])
  }

  function Step(io: Termios, l: Line, e: Event): (Line, seq<int>) {
    match e
    case Arrives(c) => (if |l.raw| < BUF_SIZE - 1 then l.(raw := l.raw + [c]) else l, [])
    case Cooks => (Cooked(io, l), [])
    case Reads(nr) => if nr <= 0 || Waits(io, l.queue) then (l, []) else (AfterRead(l, Take(io, l.queue, nr).1), Take(io, l.queue, nr).0)
  }

  function Steps(io: Termios, l: Line, events: seq<Event>): Line {
    if events == [] then l else Step(io, Steps(io, l, events[..|events| - 1]), events[|events| - 1]).0
  }

  /** A read takes a prefix of the queue, and the end-of-file character that ended it. */
  lemma {:induction false} TakeSplits(io: Termios, q: seq<int>, nr: int)
    ensures var t := Take(io, q, nr);
      (q == t.0 + t.1 && (|t.0| == nr || nr <= 0 || t.1 == [])) || (io.canon && |t.0| < nr && q == t.0 + [io.eof] + t.1)
    ensures |Take(io, q, nr).0| <= if nr > 0 then nr else 0
    ensures io.canon ==> io.eof !in Take(io, q, nr).0
  {
    if 0 < nr && q != [] && !(io.canon && q[0] == io.eof) {
      var c, rest := q[0], q[1..];
      var t := Take(io, rest, nr - 1);
      TakeSplits(io, rest, nr - 1);
      assert q == [c] + rest;
      if rest == t.0 + t.1 { assert q == ([c] + t.0) + t.1; } else { assert q == ([c] + t.0) + [io.eof] + t.1; }
    }
  }

  /** A typed line is read whole once its newline is there, and not before unless the queue is
      nearly full. */
  lemma LineIsRead(io: Termios, s: seq<int>, nr: int)
    requires io.canon && io.eof != NL && nr > |s| && forall k :: 0 <= k < |s| ==> Plain(io, s[k])
    ensures !Waits(io, s + [NL]) && Take(io, s + [NL], nr) == (s + [NL], [])
    ensures |s| < 1003 ==> Waits(io, s)
  {
    NoLines(io, s);
    assert (s + [NL])[..|s + [NL]| - 1] == s;
    TakenWhole(io, s + [NL], nr);
  }

  lemma {:induction false} NoLines(io: Termios, s: seq<int>)
    requires forall k :: 0 <= k < |s| ==> !IsLineEnd(io, s[k])
    ensures Lines(io, s) == 0
  {
    if s != [] { NoLines(io, s[..|s| - 1]); }
  }

  lemma {:induction false} TakenWhole(io: Termios, q: seq<int>, nr: int)
    requires |q| <= nr && (io.canon ==> io.eof !in q)
    ensures Take(io, q, nr) == (q, [])
  {
    if q != [] {
      TakenWhole(io, q[1..], nr - 1);
      assert [q[0]] + q[1..] == q;
    }
  }

  /** What was read and what is queued is the edited input; once an erase or kill has reached
      into a partly read line it is longer than that, with the queue as their common end. */
  ghost predicate Tracks(io: Termios, l: Line) {
    var fold := EditAll(io, [], l.input);
    if l.untouched then l.taken + l.queue == fold
    else |l.queue| <= |fold| < |l.taken| + |l.queue| && fold[|fold| - |l.queue|..] == l.queue
  }

  /** So the line-editing fold of all input is what was read and what is queued exactly as long
      as no erase or kill has reached into a line of which a part had been read. */
  lemma FoldExactly(io: Termios, l: Line)
    requires Tracks(io, l)
    ensures l.untouched <==> l.taken + l.queue == EditAll(io, [], l.input)
  {
  }

  lemma CookTracks(io: Termios, l: Line)
    requires Tracks(io, l) && l.raw != []
    ensures Tracks(io, CookedOne(io, l))
  {
    hide Edit, Reaches;
    var raw, fold := l.raw[0], EditAll(io, [], l.input);
    EditAllNext(io, [], l.input, raw);
    if l.untouched {
      EditIsStreamEdit(io, l.taken, l.queue, raw);
      if Reaches(io, l.taken, l.queue, raw) { ReachedShorter(io, l.taken, l.queue, raw); }
    } else {
      var a := fold[..|fold| - |l.queue|];
      assert fold == a + l.queue;
      EditBehind(io, a, l.queue, raw);
    }
  }

  /** The first time that erase or kill reaches too far. */
  lemma ReachedShorter(io: Termios, taken: seq<int>, q: seq<int>, raw: int)
    requires Reaches(io, taken, q, raw)
    ensures Edit(io, q, raw) == [] && |Edit(io, taken + q, raw)| < |taken|
  {
    KilledSplit(io, taken, q);
    KilledKeepsLines(io, taken);
    if q == [] { assert taken + q == taken; }
  }

  /** Editing a stream edits the queue at its end, and perhaps shortens what is before it. */
  lemma EditBehind(io: Termios, a: seq<int>, q: seq<int>, raw: int)
    ensures var f, r := Edit(io, a + q, raw), Edit(io, q, raw); |r| <= |f| <= |a| + |r| && f[|f| - |r|..] == r
  {
    KilledSplit(io, a, q);
    KilledKeepsLines(io, a);
    KilledKeepsLines(io, q);
    if q == [] {
      assert a + q == a;
    } else {
      assert (a + q)[|a + q| - 1] == q[|q| - 1];
      assert (a + q)[..|a + q| - 1] == a + q[..|q| - 1];
    }
    match Map(io, raw)
    case Ignored =>
    case Char(c) => assert (a + q) + [c] == a + (q + [c]);
  }

  lemma TakeTracks(io: Termios, l: Line)
    requires Tracks(io, l) && l.queue != []
    ensures Tracks(io, l.(queue := l.queue[1..], taken := l.taken + [l.queue[0]]))
  {
    var fold := EditAll(io, [], l.input);
    assert (l.taken + [l.queue[0]]) + l.queue[1..] == l.taken + l.queue;
    if !l.untouched {
      assert fold[|fold| - |l.queue| + 1..] == fold[|fold| - |l.queue|..][1..];
    }
  }

  // ----- a run in which erase reaches too far: "x", newline, "a", all read at once, then erase

  /** The usual settings: canonical mode, CR to NL, erase is 127. */
  function Usual(): Termios {
    Termios(true, false, false, false, true, true, 3, 28, 127, 21, 4, 17, 19)
  }

  lemma StepsNext(io: Termios, l: Line, events: seq<Event>, e: Event)
    ensures Steps(io, l, events + [e]) == Step(io, Steps(io, l, events), e).0
  {
    assert (events + [e])[..|events|] == events;
  }

  lemma TakeNextOne(io: Termios, c: int, rest: seq<int>, nr: int)
    requires nr > 0 && c != io.eof
    ensures Take(io, [c] + rest, nr) == ([c] + Take(io, rest, nr - 1).0, Take(io, rest, nr - 1).1)
  {
    assert ([c] + rest)[1..] == rest;
  }

  lemma CookedNext(io: Termios, c: int, rest: seq<int>, l: Line)
    requires l.raw == [c] + rest && |l.queue| < BUF_SIZE - 1
    ensures Cooked(io, l) == Cooked(io, Line(rest, Edit(io, l.queue, c), Flow(io, l.stopped, c), l.input + [c], l.taken, l.untouched && !Reaches(io, l.taken, l.queue, c)))
  {
    assert l.raw[1..] == rest;
  }

  lemma CookedNone(io: Termios, l: Line)
    requires l.raw == []
    ensures Cooked(io, l) == l
  {
  }

  lemma OpenLineCooked()
    ensures Cooked(Usual(), Line([120, NL, 97], [], false, [], [], true)) == Line([], [120, NL, 97], false, [120, NL, 97], [], true)
  {
    hide Cooked;
    var io := Usual();
    assert [120] + [NL, 97] == [120, NL, 97] && [NL] + [97] == [NL, 97] && [97] + [] == [97];
    assert [] + [120] == [120] && [120] + [NL] == [120, NL] && [120, NL] + [97] == [120, NL, 97];
    CookedNext(io, 120, [NL, 97], Line([120, NL, 97], [], false, [], [], true));
    CookedNext(io, NL, [97], Line([NL, 97], [120], false, [120], [], true));
    CookedNext(io, 97, [], Line([97], [120, NL], false, [120, NL], [], true));
    CookedNone(io, Line([], [120, NL, 97], false, [120, NL, 97], [], true));
  }

  lemma OpenLineRead()
    ensures Step(Usual(), Line([], [120, NL, 97], false, [120, NL, 97], [], true), Reads(3)) ==
      (Line([], [], false, [120, NL, 97], [120, NL, 97], true), [120, NL, 97])
  {
    var io, q := Usual(), [120, NL, 97];
    TakeNextOne(io, 97, [], 1);
    assert [97] + [] == [97];
    TakeNextOne(io, NL, [97], 2);
    assert [NL] + [97] == [NL, 97];
    TakeNextOne(io, 120, [NL, 97], 3);
    assert [120] + [NL, 97] == q;
    assert Take(io, q, 3) == (q, []);
    LinesFirst(io, q);
    LinesFirst(io, q[1..]);
    assert q[1..] == [NL, 97] && q[..3] == q;
    assert !Waits(io, q) && [] + q == q && q[..|q| - 0] == q;
  }

  lemma EraseCooked()
    ensures Cooked(Usual(), Line([127], [], false, [120, NL, 97], [120, NL, 97], true)) == Line([], [], false, [120, NL, 97, 127], [120, NL, 97], false)
  {
    var io, q := Usual(), [120, NL, 97];
    CookedNext(io, 127, [], Line([127], [], false, q, q, true));
    assert q + [127] == [120, NL, 97, 127] && q[|q| - 1] == 97;
    assert Reaches(io, q, [], 127) && Edit(io, [], 127) == [];
  }

  lemma FoldErased()
    ensures EditAll(Usual(), [], [120, NL, 97, 127]) == [120, NL]
  {
    hide EditAll;
    var io := Usual();
    assert EditAll(io, [], []) == [] by { EditAllNone(io, []); }
    EditAllNext(io, [], [], 120);
    assert [] + [120] == [120] && Edit(io, [], 120) == [120];
    EditAllNext(io, [], [120], NL);
    assert [120] + [NL] == [120, NL] && Edit(io, [120], NL) == [120, NL];
    EditAllNext(io, [], [120, NL], 97);
    assert [120, NL] + [97] == [120, NL, 97] && Edit(io, [120, NL], 97) == [120, NL, 97];
    EditAllNext(io, [], [120, NL, 97], 127);
    assert [120, NL, 97] + [127] == [120, NL, 97, 127] && [120, NL, 97][..2] == [120, NL];
  }

  /** When 'a' has been read from an open line, erasing does not take it back: a fresh terminal
      hands over three characters, of which the edited input has only two in the end. */
  lemma ReadThenErase()
    ensures var l := Steps(Usual(), Line([], [], false, [], [], true), [Arrives(120), Arrives(NL), Arrives(97), Cooks, Reads(3), Arrives(127), Cooks]);
      l == Line([], [], false, [120, NL, 97, 127], [120, NL, 97], false) && EditAll(Usual(), [], l.input) == [120, NL]
  {
    hide Step, Steps, Cooked, EditAll, Usual;
    var io, l := Usual(), Line([], [], false, [], [], true);
    TypedThree();
    var e3 := [Arrives(120), Arrives(NL), Arrives(97)];
    assert e3 + [Cooks] + [Reads(3)] + [Arrives(127)] + [Cooks] == [Arrives(120), Arrives(NL), Arrives(97), Cooks, Reads(3), Arrives(127), Cooks];
    StepsNext(io, l, e3, Cooks);
    StepsNext(io, l, e3 + [Cooks], Reads(3));
    StepsNext(io, l, e3 + [Cooks] + [Reads(3)], Arrives(127));
    StepsNext(io, l, e3 + [Cooks] + [Reads(3)] + [Arrives(127)], Cooks);
    assert [] + [127] == [127];
    OpenLineCooked();
    OpenLineRead();
    EraseCooked();
    FoldErased();
    StepIs(io, Line([120, NL, 97], [], false, [], [], true), 0);
    StepIs(io, Line([], [], false, [120, NL, 97], [120, NL, 97], true), 127);
    StepIs(io, Line([127], [], false, [120, NL, 97], [120, NL, 97], true), 0);
  }

  lemma StepIs(io: Termios, l: Line, c: int)
    ensures Step(io, l, Cooks).0 == Cooked(io, l)
    ensures |l.raw| < BUF_SIZE - 1 ==> Step(io, l, Arrives(c)).0 == l.(raw := l.raw + [c])
  {
  }

  lemma TypedThree()
    ensures Steps(Usual(), Line([], [], false, [], [], true), [Arrives(120), Arrives(NL), Arrives(97)]) == Line([120, NL, 97], [], false, [], [], true)
  {
    hide Step, Steps, Usual;
    var io, l := Usual(), Line([], [], false, [], [], true);
    NoSteps(io, l);
    StepsNext(io, l, [], Arrives(120));
    assert [] + [Arrives(120)] == [Arrives(120)];
    StepIs(io, l, 120);
    StepsNext(io, l, [Arrives(120)], Arrives(NL));
    assert [Arrives(120)] + [Arrives(NL)] == [Arrives(120), Arrives(NL)];
    StepIs(io, Line([120], [], false, [], [], true), NL);
    StepsNext(io, l, [Arrives(120), Arrives(NL)], Arrives(97));
    assert [Arrives(120), Arrives(NL)] + [Arrives(97)] == [Arrives(120), Arrives(NL), Arrives(97)];
    StepIs(io, Line([120, NL], [], false, [], [], true), 97);
    assert [] + [120] == [120] && [120] + [NL] == [120, NL] && [120, NL] + [97] == [120, NL, 97];
  }

  lemma NoSteps(io: Termios, l: Line)
    ensures Steps(io, l, []) == l
  {
  }

  class Tty {
    const io: Termios
    const rawBuf: array<int>           // read_q
    var rawHead: int
    var rawTail: int
    const buf: array<int>              // secondary
    var head: int
    var tail: int
    var data: int                      // secondary.data
    var stopped: bool
    ghost var input: seq<int>          // characters copy_to_cooked has consumed
    ghost var taken: seq<int>          // characters tty_read has consumed
    ghost var untouched: bool          // no erase or kill has reached into a partly read line

    ghost predicate Shape()
      reads this
    {
      rawBuf != buf && rawBuf.Length == buf.Length == BUF_SIZE && RingOk(BUF_SIZE, rawHead, rawTail) && RingOk(BUF_SIZE, head, tail)
    }

    ghost function Raw(): seq<int>
      requires Shape()
      reads this, rawBuf
    {
      Contents(rawBuf[..], rawHead, rawTail)
    }

    ghost function Queue(): seq<int>
      requires Shape()
      reads this, buf
    {
      Contents(buf[..], head, tail)
    }

    ghost function Abs(): Line
      requires Shape()
      reads this, rawBuf, buf
    {
      Line(Raw(), Queue(), stopped, input, taken, untouched)
    }

    /** data counts the line ends in the queue, and the queue keeps track of the edited input. */
    ghost predicate Valid()
      reads this, rawBuf, buf
    {
      Shape() && data == Lines(io, Queue()) && Tracks(io, Abs())
    }

    constructor (io: Termios)
      ensures Valid() && untouched && input == [] && taken == [] && this.io == io && fresh(rawBuf) && fresh(buf)
    {
      this.io := io;
      rawBuf := new int[BUF_SIZE];
      buf := new int[BUF_SIZE];
      rawHead, rawTail, head, tail, data, stopped := 0, 0, 0, 0, 0, false;
      input, taken, untouched := [], [], true;
      new;
      assert Queue() == [];
    }

    /** GETCH(read_q, c) */
    method GetRaw() returns (c: int)
      requires Shape() && Raw() != []
      modifies `rawTail
      ensures Shape() && c == old(Raw()[0]) && Raw() == old(Raw())[1..]
    {
      hide Contents, Count, Place;
      c := rawBuf[rawTail];
      var next := (rawTail + 1) % BUF_SIZE;
      Taken(rawBuf[..], rawHead, rawTail, 1, next);
      assert rawBuf[..][rawTail..rawTail + 1] == [c];
      rawTail := next;
    }

    /** GETCH(secondary, c) */
    method GetChar() returns (c: int)
      requires Shape() && Queue() != []
      modifies `tail
      ensures Shape() && c == old(Queue()[0]) && Queue() == old(Queue())[1..]
    {
      hide Contents, Count, Place;
      c := buf[tail];
      var next := (tail + 1) % BUF_SIZE;
      Taken(buf[..], head, tail, 1, next);
      assert buf[..][tail..tail + 1] == [c];
      tail := next;
    }

    /** PUTCH(c, secondary) */
    method PutChar(c: int)
      requires Shape() && |Queue()| < BUF_SIZE - 1
      modifies buf, `head
      ensures Shape() && Queue() == old(Queue()) + [c]
    {
      hide Contents, Count, Place;
      ghost var before := buf[..];
      var next := (head + 1) % BUF_SIZE;
      buf[head] := c;
      Appended(before, head, tail, [c], buf[..], next);
      head := next;
    }

    /** LAST(secondary) */
    method Last() returns (c: int)
      requires Shape() && Queue() != []
      ensures c == Queue()[|Queue()| - 1]
    {
      hide Contents, Count, Place;
      Dropped(buf[..], head, tail, if head == 0 then BUF_SIZE - 1 else head - 1);
      c := buf[(head - 1) % BUF_SIZE];
    }

    /** DEC(secondary.head) */
    method DropChar()
      requires Shape() && Queue() != []
      modifies `head
      ensures Shape() && Queue() == old(Queue())[..|old(Queue())| - 1]
    {
      hide Contents, Count, Place;
      Dropped(buf[..], head, tail, if head == 0 then BUF_SIZE - 1 else head - 1);
      head := (head - 1) % BUF_SIZE;
    }

    /** the KILL loop */
    method KillLine()
      requires Shape()
      modifies `head
      ensures Shape() && Queue() == Killed(io, old(Queue()))
    {
      hide Contents, Count, Place;
      while head != tail
        invariant Shape() && Killed(io, Queue()) == Killed(io, old(Queue()))
        decreases |Queue()|
      {
        var c := Last();
        if c == NL || c == io.eof { break; }
        DropChar();
      }
    }

    method EraseChar()
      requires Shape()
      modifies `head
      ensures Shape() && Queue() == Erased(io, old(Queue()))
    {
      hide Contents, Count, Place;
      if head == tail { return; }
      var c := Last();
      if c == NL || c == io.eof { return; }
      DropChar();
    }

    /** What copy_to_cooked does with one character. */
    method Cook(raw: int)
      requires Shape() && data == Lines(io, Queue()) && |Queue()| < BUF_SIZE - 1
      modifies buf, `head, `data, `stopped
      ensures Shape() && data == Lines(io, Queue()) && Queue() == Edit(io, old(Queue()), raw) && stopped == Flow(io, old(stopped), raw)
    {
      hide Contents, Count, Place;
      var c := raw;
      if c == CR {
        if io.crnl { c := NL; } else if io.nocr { return; }
      } else if c == NL && io.nlcr {
        c := CR;
      }
      if io.uclc { c := ToLower(c); }
      assert Map(io, raw) == Char(c);
      if io.canon {
        if c == io.kill {
          KilledKeepsLines(io, Queue());
          KillLine();
          return;
        }
        if c == io.erase {
          EraseChar();
          return;
        }
        if c == io.stop { stopped := true; return; }
        if c == io.start { stopped := false; return; }
      }
      if io.isig && (c == io.intr || c == io.quit) { return; }
      if c == NL || c == io.eof { data := data + 1; }
      PutChar(c);
    }

    /** copy_to_cooked: characters are edited into the queue until there are no more or the queue
        is full. */
    method CopyToCooked()
      requires Valid()
      modifies buf, `rawTail, `head, `data, `stopped, `input, `untouched
      ensures Valid() && Abs() == Cooked(io, old(Abs()))
    {
      hide Contents, Count, Place, Lines, Edit, Flow, Reaches, Tracks;
      while rawHead != rawTail && (tail - head - 1) % BUF_SIZE != 0
        invariant Valid() && Cooked(io, Abs()) == Cooked(io, old(Abs()))
        decreases |Raw()|
      {
        LeftOver(head, tail);
        CookNext();
      }
      LeftOver(head, tail);
    }

    /** One turn of copy_to_cooked's loop. */
    method CookNext()
      requires Valid() && Raw() != [] && |Queue()| < BUF_SIZE - 1
      modifies buf, `rawTail, `head, `data, `stopped, `input, `untouched
      ensures Valid() && Abs() == CookedOne(io, old(Abs()))
    {
      hide Contents, Count, Place, Edit, Lines, Reaches, Flow, Tracks;
      ghost var q := Queue();
      CookTracks(io, Abs());
      var raw := GetRaw();
      Cook(raw);
      untouched := untouched && !Reaches(io, taken, q, raw);
      input := input + [raw];
    }

    /** One turn of tty_read's do-loop. */
    method TakeChar() returns (c: int)
      requires Valid() && Queue() != []
      modifies `tail, `data, `taken
      ensures Valid() && c == old(Queue()[0]) && Queue() == old(Queue())[1..] && taken == old(taken) + [c]
    {
      hide Contents, Count, Place, EditAll, Tracks, Lines;
      LinesFirst(io, Queue());
      TakeTracks(io, Abs());
      c := GetChar();
      if c == io.eof || c == NL { data := data - 1; }
      taken := taken + [c];
    }

    /** The do-loop of tty_read: characters are taken until the request is met or the queue is
        empty, past newlines too; in canonical mode an end-of-file character ends it. */
    method ReadPass(nr: int) returns (out: seq<int>, eof: bool)
      requires Valid() && 0 < nr && Queue() != []
      modifies `tail, `data, `taken
      ensures Valid() && |out| <= nr && taken == old(taken) + out + (if eof then [io.eof] else [])
      ensures old(Queue()) == out + (if eof then [io.eof] else []) + Queue()
      ensures eof ==> io.canon && |out| < nr
      ensures io.canon ==> io.eof !in out
      ensures !eof ==> |out| == nr || Queue() == []
      ensures (out, Queue()) == Take(io, old(Queue()), nr)
    {
      hide Contents, Count, Place, Lines, EditAll, Take, Then, Tracks;
      TakeNext(io, Queue(), nr, []);
      out := [];
      eof := false;
      var first := true;
      while first || (|out| < nr && head != tail)
        invariant Valid() && |out| <= nr && taken == old(taken) + out && old(Queue()) == out + Queue()
        invariant first ==> out == [] && Queue() != []
        invariant Take(io, old(Queue()), nr) == Then(out, Take(io, Queue(), nr - |out|))
        invariant io.canon ==> io.eof !in out
        decreases |Queue()|
      {
        first := false;
        ghost var q := Queue();
        TakeNext(io, q, nr - |out|, out);
        var c := TakeChar();
        Shifted(q, c, Queue(), out);
        Grouped(old(taken), out, c);
        if c == io.eof && io.canon { return out, true; }
        out := out + [c];
      }
      TakeNext(io, Queue(), nr - |out|, out);
    }

    /** A driver puts a character into the read queue, if there is room. */
    method Receive(c: int)
      requires Valid()
      modifies rawBuf, `rawHead
      ensures Valid() && Queue() == old(Queue()) && Raw() == if |old(Raw())| < BUF_SIZE - 1 then old(Raw()) + [c] else old(Raw())
    {
      hide Contents, Count, Place, Lines, EditAll;
      LeftOver(rawHead, rawTail);
      if (rawTail - rawHead - 1) % BUF_SIZE == 0 { return; }
      ghost var before := rawBuf[..];
      var next := (rawHead + 1) % BUF_SIZE;
      rawBuf[rawHead] := c;
      Appended(before, rawHead, rawTail, [c], rawBuf[..], next);
      rawHead := next;
    }

    /** tty_read waits while there is nothing, or in canonical mode no line and still room. */
    method MustWait() returns (wait: bool)
      requires Valid()
      ensures wait <==> Waits(io, Queue())
    {
      hide Contents, Place, Lines, EditAll;
      LeftOver(head, tail);
      wait := head == tail || (io.canon && data == 0 && (tail - head - 1) % BUF_SIZE > 20);
    }

    /** Any order of arriving characters, cooking and reading: every read gets what it would get
        from the terminal without rings; at the end what was read and what is queued is the edited
        input exactly if no erase or kill reached into a line of which a part had been read. */
    method Run(events: seq<Event>) returns (outs: seq<seq<int>>)
      requires Valid()
      modifies this, rawBuf, buf
      ensures Valid() && |outs| == |events| && Abs() == Steps(io, old(Abs()), events)
      ensures untouched <==> taken + Queue() == EditAll(io, [], input)
      ensures forall i :: 0 <= i < |events| ==> outs[i] == Step(io, Steps(io, old(Abs()), events[..i]), events[i]).1
    {
      hide Contents, Count, Place, Cooked, Take, EditAll, Lines, Step, Tracks;
      outs := [];
      while |outs| < |events|
        invariant |outs| <= |events| && Valid() && Abs() == Steps(io, old(Abs()), events[..|outs|])
        invariant forall i :: 0 <= i < |outs| ==> outs[i] == Step(io, Steps(io, old(Abs()), events[..i]), events[i]).1
      {
        ghost var i := |outs|;
        var out := Perform(events[|outs|]);
        outs := outs + [out];
        assert events[..i + 1][..i] == events[..i];
      }
      assert events[..|outs|] == events;
      FoldExactly(io, Abs());
    }

    method Perform(e: Event) returns (out: seq<int>)
      requires Valid()
      modifies this, rawBuf, buf
      ensures Valid() && (Abs(), out) == Step(io, old(Abs()), e)
    {
      hide Contents, Count, Place, Cooked, Take, EditAll, Lines;
      out := [];
      match e
      case Arrives(c) => Receive(c);
      case Cooks =>
        CopyToCooked();
      case Reads(nr) =>
        var wait := MustWait();
        if nr > 0 && !wait {
          ghost var q := Queue();
          var eof;
          out, eof := ReadPass(nr);
          ghost var gone := out + if eof then [io.eof] else [];
          assert q == gone + Queue() && q[..|q| - |Queue()|] == gone;
          assert taken == old(taken) + gone;
        }
    }
  }

  function Then(out: seq<int>, t: (seq<int>, seq<int>)): (seq<int>, seq<int>) {
    (out + t.0, t.1)
  }

  lemma TakeNext(io: Termios, q: seq<int>, nr: int, out: seq<int>)
    ensures Then([], Take(io, q, nr)) == Take(io, q, nr)
    ensures q == [] || nr <= 0 ==> Then(out, Take(io, q, nr)) == (out, q)
    ensures q != [] && nr > 0 && io.canon && q[0] == io.eof ==> Then(out, Take(io, q, nr)) == (out, q[1..])
    ensures q != [] && nr > 0 && !(io.canon && q[0] == io.eof) ==> Then(out, Take(io, q, nr)) == Then(out + [q[0]], Take(io, q[1..], nr - 1))
  {
    assert [] + Take(io, q, nr).0 == Take(io, q, nr).0 && out + [] == out;
    if q != [] && nr > 0 && !(io.canon && q[0] == io.eof) {
      Grouped2(out, q[0], Take(io, q[1..], nr - 1).0);
    }
  }

  lemma Grouped2(a: seq<int>, c: int, b: seq<int>)
    ensures a + ([c] + b) == (a + [c]) + b
  {
  }

  datatype Event = Arrives(c: int) | Cooks | Reads(nr: int)

  lemma LeftOver(head: int, tail: int)
    requires RingOk(BUF_SIZE, head, tail)
    ensures (tail - head - 1) % BUF_SIZE == BUF_SIZE - 1 - Count(BUF_SIZE, head, tail)
  {
  }

  lemma Shifted(s: seq<int>, c: int, rest: seq<int>, front: seq<int>)
    requires s != [] && s[0] == c && s[1..] == rest
    ensures front + s == (front + [c]) + rest
  {
  }

  lemma Grouped(a: seq<int>, b: seq<int>, c: int)
    ensures a + (b + [c]) == (a + b) + [c]
  {
  }

  lemma EditAllNone(io: Termios, q: seq<int>)
    ensures EditAll(io, q, []) == q
  {
  }

  lemma FlowAllNext(io: Termios, stopped: bool, input: seq<int>, raw: int)
    ensures FlowAll(io, stopped, input + [raw]) == Flow(io, FlowAll(io, stopped, input), raw)
  {
    assert (input + [raw])[..|input|] == input;
  }

  lemma EditAllNext(io: Termios, q: seq<int>, input: seq<int>, raw: int)
    ensures EditAll(io, q, input + [raw]) == Edit(io, EditAll(io, q, input), raw)
  {
    assert (input + [raw])[..|input|] == input;
  }
}

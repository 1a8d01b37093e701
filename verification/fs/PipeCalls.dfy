/** Whole calls of read_pipe and write_pipe by one reader and one writer (linux-0.11/fs/pipe.c): they never wait for
    each other at once, they end, and how depends only on how many bytes there are. */
module PipeCalls {
  import opened Basics
  import opened Pipes

  /** A party is outside, in its call with so many bytes to go, or asleep in it. */
  datatype Party = Out | In(todo: nat) | Asleep(todo: nat)

  /** q: the bytes in the pipe; input: what the writer still has to write; sent, got: all that was ever written and
      read; both: i_count is 2. */
  datatype Pair = Pair(q: seq<int>, head: nat, tail: nat, reader: Party, writer: Party, input: seq<int>,
                       sent: seq<int>, got: seq<int>, both: bool)

  datatype Move =
    | StartRead(count: nat) | StartWrite(data: seq<int>) | ReaderRuns | WriterRuns | ReaderCloses | WriterCloses

  /** wake_up(&inode->i_wait) */
  function Woken(p: Party): Party { if p.Asleep? then In(p.todo) else p }

  function Todo(p: Party): nat { if p.Out? then 0 else p.todo }

  predicate CanMove(s: Pair, m: Move) {
    match m
    case StartRead(_) => s.reader.Out?
    case StartWrite(_) => s.writer.Out?
    case ReaderRuns => s.reader.In?
    case WriterRuns => s.writer.In?
    case ReaderCloses => s.reader.Out? && s.both
    case WriterCloses => s.writer.Out? && s.both
  }

  predicate Shaped(s: Pair) {
    s.head < PAGE_SIZE && s.tail < PAGE_SIZE && |s.q| <= ROOM && |s.input| == Todo(s.writer)
  }

  /** From one sleep, or loop turn, to the next. */
  function Step(s: Pair, m: Move): (r: Pair)
    requires CanMove(s, m) && Shaped(s)
    ensures Shaped(r)
  {
    match m
    case StartRead(count) => s.(reader := In(count))
    case StartWrite(data) => s.(writer := In(|data|), input := data)
    case ReaderRuns =>
      var n := s.reader.todo;
      if n == 0 then s.(reader := Out, writer := Woken(s.writer))
      else if s.q == [] then s.(reader := if s.both then Asleep(n) else Out, writer := Woken(s.writer))
      else
        var k := ReadTurn(s.q, s.tail, n);
        s.(q := s.q[k..], tail := (s.tail + k) % PAGE_SIZE, got := s.got + s.q[..k], reader := In(n - k))
    case WriterRuns =>
      var n := s.writer.todo;
      if n == 0 then s.(writer := Out, reader := Woken(s.reader))
      else if |s.q| == ROOM then
        if s.both then s.(writer := Asleep(n), reader := Woken(s.reader))
        else s.(writer := Out, input := [], reader := Woken(s.reader))   // SIGPIPE
      else
        var k := WriteTurn(s.q, s.head, n);
        s.(q := s.q + s.input[..k], head := (s.head + k) % PAGE_SIZE, sent := s.sent + s.input[..k],
           input := s.input[k..], writer := In(n - k))
    case ReaderCloses => s.(both := false, writer := Woken(s.writer))
    case WriterCloses => s.(both := false, reader := Woken(s.reader))
  }

  /** Never both asleep; and whoever sleeps has nothing to do, unless the other is at work and will wake it. */
  ghost predicate NoDeadlock(s: Pair) {
    && !(s.reader.Asleep? && s.writer.Asleep?)
    && (s.reader.Asleep? ==> s.both && s.reader.todo > 0 && (s.q == [] || s.writer.In?))
    && (s.writer.Asleep? ==> s.both && s.writer.todo > 0 && (|s.q| == ROOM || s.reader.In?))
  }

  /** What was written and not yet read is in the pipe, and fills what lies between tail and head. */
  ghost predicate Sound(s: Pair) {
    Shaped(s) && NoDeadlock(s) && |s.q| == PipeSize(s.head, s.tail) && s.sent == s.got + s.q
  }

  lemma MoveKeeps(s: Pair, m: Move)
    requires Sound(s) && CanMove(s, m)
    ensures Sound(Step(s, m)) && s.got <= Step(s, m).got && s.sent <= Step(s, m).sent
  {
    hide PipeSize, ReadTurn, WriteTurn;
    if m.ReaderRuns? && s.reader.todo > 0 && s.q != [] {
      var k := ReadTurn(s.q, s.tail, s.reader.todo);
      Retire(s.head, s.tail, k);
      Regroup(s.got, s.q, k);
    } else if m.WriterRuns? && s.writer.todo > 0 && |s.q| < ROOM {
      var k := WriteTurn(s.q, s.head, s.writer.todo);
      Advance(s.head, s.tail, k);
      assert s.got + s.q + s.input[..k] == s.got + (s.q + s.input[..k]);
    }
  }

  ghost predicate CanGo(s: Pair, ms: seq<Move>)
    requires Shaped(s)
    decreases |ms|
  {
    ms == [] || (CanMove(s, ms[0]) && CanGo(Step(s, ms[0]), ms[1..]))
  }

  ghost function After(s: Pair, ms: seq<Move>): (r: Pair)
    requires Shaped(s) && CanGo(s, ms)
    ensures Shaped(r)
    decreases |ms|
  {
    if ms == [] then s else After(Step(s, ms[0]), ms[1..])
  }

  /** Over every run a single reader and a single writer are never both asleep, and what is read is what was written. */
  lemma {:induction false} NeverBothAsleep(s: Pair, ms: seq<Move>)
    requires Sound(s) && CanGo(s, ms)
    ensures Sound(After(s, ms)) && s.got <= After(s, ms).got && s.sent <= After(s, ms).sent
    decreases |ms|
  {
    hide NoDeadlock, Shaped, Step, CanMove;
    if ms != [] {
      MoveKeeps(s, ms[0]);
      NeverBothAsleep(Step(s, ms[0]), ms[1..]);
    }
  }

  // ---- The calls end ----

  predicate AtRest(s: Pair) { !s.reader.In? && !s.writer.In? }

  /** Only the two calls under way go on. */
  predicate OnlyRuns(ms: seq<Move>) { forall m :: m in ms ==> m.ReaderRuns? || m.WriterRuns? }

  function Weight(p: Party): nat { if p.In? then 2 else if p.Asleep? then 1 else 0 }

  /** Bytes still to be moved, who is awake, and whether the next move may be no more than to wake the other. */
  function Effort(s: Pair): nat {
    8 * (Todo(s.reader) + Todo(s.writer)) + 2 * (Weight(s.reader) + Weight(s.writer))
    + if (s.q == [] && s.writer.Asleep?) || (|s.q| == ROOM && s.reader.Asleep?) then 1 else 0
  }

  lemma MoveWorks(s: Pair, m: Move)
    requires Sound(s) && CanMove(s, m) && (m.ReaderRuns? || m.WriterRuns?)
    ensures Effort(Step(s, m)) < Effort(s)
  {
    hide PipeSize, ReadTurn, WriteTurn;
  }

  lemma {:induction false} BoundedCalls(s: Pair, ms: seq<Move>)
    requires Sound(s) && CanGo(s, ms) && OnlyRuns(ms)
    ensures |ms| + Effort(After(s, ms)) <= Effort(s)
    decreases |ms|
  {
    hide NoDeadlock, Shaped, Step, CanMove, Effort;
    if ms != [] {
      MoveKeeps(s, ms[0]);
      MoveWorks(s, ms[0]);
      assert forall m :: m in ms[1..] ==> m in ms;
      BoundedCalls(Step(s, ms[0]), ms[1..]);
    }
  }

  /** Whoever has not ended its call or gone to sleep can go on. */
  lemma {:induction false} ComesToRest(s: Pair) returns (ms: seq<Move>)
    requires Sound(s)
    ensures CanGo(s, ms) && OnlyRuns(ms) && AtRest(After(s, ms))
    decreases Effort(s)
  {
    hide NoDeadlock, Shaped, Step, Effort;
    if AtRest(s) {
      ms := [];
    } else {
      var m := if s.reader.In? then ReaderRuns else WriterRuns;
      MoveKeeps(s, m);
      MoveWorks(s, m);
      var rest := ComesToRest(Step(s, m));
      ms := [m] + rest;
      assert ms[1..] == rest;
    }
  }

  // ---- How they end ----

  /** s' is later than s in the calls that are under way in s, of which none has been broken off. */
  ghost predicate Later(s: Pair, s': Pair) {
    && s'.both == s.both && |s'.got| + Todo(s'.reader) == |s.got| + Todo(s.reader)
    && s'.sent + s'.input == s.sent + s.input
  }

  lemma LaterMove(s: Pair, s1: Pair, m: Move)
    requires Sound(s1) && CanMove(s1, m) && (m.ReaderRuns? || m.WriterRuns?) && Later(s, s1) && s.both
    ensures Later(s, Step(s1, m))
  {
    hide PipeSize, ReadTurn, WriteTurn;
    if m.WriterRuns? && s1.writer.todo > 0 && |s1.q| < ROOM {
      var k := WriteTurn(s1.q, s1.head, s1.writer.todo);
      Regroup(s1.sent, s1.input, k);
    }
  }

  lemma {:induction false} LaterRun(s: Pair, s1: Pair, ms: seq<Move>)
    requires Sound(s1) && CanGo(s1, ms) && OnlyRuns(ms) && Later(s, s1) && s.both
    ensures Later(s, After(s1, ms))
    decreases |ms|
  {
    hide NoDeadlock, Shaped, Step, CanMove, Later;
    if ms != [] {
      MoveKeeps(s1, ms[0]);
      LaterMove(s, s1, ms[0]);
      assert forall m :: m in ms[1..] ==> m in ms;
      LaterRun(s, Step(s1, ms[0]), ms[1..]);
    }
  }

  /** What the calls have come to, by how many bytes there are. */
  ghost predicate Ended(s: Pair, n: nat, data: seq<int>, s': Pair) {
    var all := s.q + data;
    && (s'.reader.Out? <==> n <= |all|) && (s'.reader.Asleep? <==> n > |all|)
    && s'.got == s.got + (if n <= |all| then all[..n] else all)
    && (s'.writer.Out? <==> |all| <= n + ROOM) && (s'.writer.Asleep? <==> |all| > n + ROOM)
    && (s'.writer.Out? ==> s'.sent == s.sent + data) && (s'.writer.Asleep? ==> |s'.q| == ROOM)
  }

  lemma HowTheyEnd(s: Pair, n: nat, data: seq<int>, s': Pair)
    requires Sound(s) && Sound(s') && AtRest(s') && s.got <= s'.got
    requires |s'.got| + Todo(s'.reader) == |s.got| + n && s'.sent + s'.input == s.sent + data
    ensures Ended(s, n, data, s')
  {
    hide PipeSize;
    var all := s.q + data;
    assert s.got + all == s.sent + data;
    assert s'.got + (s'.q + s'.input) == s'.sent + s'.input;
    var g := |s'.got| - |s.got|;
    assert |s'.got + (s'.q + s'.input)| == |s.got + all|;
    assert (s.got + all)[..|s'.got|] == s'.got && (s.got + all)[..|s'.got|] == s.got + all[..g];
    assert all[..|all|] == all;
  }

  /** A reader that wants n bytes, and a writer that has data, call; in whatever order they run, there is an end to it,
      after so many moves at most. The reader then has its n bytes, the oldest ones, if and only if there are as many,
      and sleeps otherwise, with all there are; the writer has put in all it had if and only if there is room for what
      the reader leaves, and sleeps at a full pipe otherwise. */
  lemma CallsEnd(s: Pair, n: nat, data: seq<int>, ms: seq<Move>)
    requires Sound(s) && s.reader.Out? && s.writer.Out? && s.both
    ensures CanGo(s, [StartRead(n), StartWrite(data)]) && Sound(After(s, [StartRead(n), StartWrite(data)]))
    ensures var s1 := After(s, [StartRead(n), StartWrite(data)]);
            CanGo(s1, ms) && OnlyRuns(ms) ==>
              |ms| <= 8 * (n + |data|) + 8 && (AtRest(After(s1, ms)) ==> Ended(s, n, data, After(s1, ms)))
  {
    var s1 := Started(s, n, data);
    hide Sound, Step, CanMove, Ended;
    if CanGo(s1, ms) && OnlyRuns(ms) {
      NeverBothAsleep(s1, ms);
      BoundedCalls(s1, ms);
      LaterRun(s1, s1, ms);
      if AtRest(After(s1, ms)) { HowTheyEnd(s, n, data, After(s1, ms)); }
    }
  }

  /** What the reader will have if no more is written, and what the writer will have put in if no more is read. */
  function DueOut(s: Pair): seq<int> { s.got + s.q[..Min(Todo(s.reader), |s.q|)] }

  function DueIn(s: Pair): seq<int>
    requires Shaped(s)
  {
    s.sent + s.input[..Min(Todo(s.writer), ROOM - |s.q|)]
  }

  lemma ClosedMove(s: Pair, m: Move)
    requires Sound(s) && !s.both && CanMove(s, m) && (m.ReaderRuns? || m.WriterRuns?)
    ensures Shaped(Step(s, m)) && !Step(s, m).both
    ensures s.writer.Out? ==> Step(s, m).writer.Out? && DueOut(Step(s, m)) == DueOut(s)
    ensures s.reader.Out? ==> Step(s, m).reader.Out? && DueIn(Step(s, m)) == DueIn(s)
  {
    hide PipeSize, ReadTurn, WriteTurn;
    if m.ReaderRuns? && s.reader.todo > 0 && s.q != [] {
      var (k, j) := (ReadTurn(s.q, s.tail, s.reader.todo), Min(s.reader.todo, |s.q|));
      assert s.got + s.q[..k] + s.q[k..][..j - k] == s.got + s.q[..j];
    } else if m.WriterRuns? && s.writer.todo > 0 && |s.q| < ROOM {
      var (k, j) := (WriteTurn(s.q, s.head, s.writer.todo), Min(s.writer.todo, ROOM - |s.q|));
      assert s.sent + s.input[..k] + s.input[k..][..j - k] == s.sent + s.input[..j];
    }
  }

  lemma {:induction false} StillClosed(s: Pair, ms: seq<Move>)
    requires Sound(s) && !s.both && CanGo(s, ms) && OnlyRuns(ms)
    ensures !After(s, ms).both
    ensures s.writer.Out? ==> DueOut(After(s, ms)) == DueOut(s)
    ensures s.reader.Out? ==> DueIn(After(s, ms)) == DueIn(s)
    decreases |ms|
  {
    hide NoDeadlock, Shaped, Step, CanMove, DueOut, DueIn;
    if ms != [] {
      MoveKeeps(s, ms[0]);
      ClosedMove(s, ms[0]);
      assert forall m :: m in ms[1..] ==> m in ms;
      StillClosed(Step(s, ms[0]), ms[1..]);
    }
  }

  /** When the other end is closed nobody sleeps: the reader gets what is left, up to what it wants, and the writer
      stops when the pipe is full. */
  lemma AfterClose(s: Pair, ms: seq<Move>)
    requires Sound(s) && !s.both && CanGo(s, ms) && OnlyRuns(ms) && AtRest(After(s, ms))
    ensures After(s, ms).reader.Out? && After(s, ms).writer.Out?
    ensures s.writer.Out? ==> After(s, ms).got == s.got + s.q[..Min(Todo(s.reader), |s.q|)]
    ensures s.reader.Out? ==> After(s, ms).sent == s.sent + s.input[..Min(Todo(s.writer), ROOM - |s.q|)]
  {
    NeverBothAsleep(s, ms);
    StillClosed(s, ms);
    var s' := After(s, ms);
    assert s'.q[..0] == [] && s'.input[..0] == [] && s'.got + [] == s'.got && s'.sent + [] == s'.sent;
  }

  /** Either party may close its end when it is outside, and that wakes the other. */
  lemma Closes(s: Pair)
    requires Sound(s) && s.both
    ensures s.reader.Out? ==> CanMove(s, ReaderCloses) && Step(s, ReaderCloses) == s.(both := false, writer :=
                                if s.writer.Asleep? then In(s.writer.todo) else s.writer)
    ensures s.writer.Out? ==> CanMove(s, WriterCloses) && Step(s, WriterCloses) == s.(both := false, reader :=
                                if s.reader.Asleep? then In(s.reader.todo) else s.reader)
  {
  }

  lemma Started(s: Pair, n: nat, data: seq<int>) returns (s1: Pair)
    requires Sound(s) && s.reader.Out? && s.writer.Out?
    ensures CanGo(s, [StartRead(n), StartWrite(data)]) && s1 == After(s, [StartRead(n), StartWrite(data)])
    ensures Sound(s1) && s1 == s.(reader := In(n), writer := In(|data|), input := data)
  {
    var ms := [StartRead(n), StartWrite(data)];
    s1 := s.(reader := In(n), writer := In(|data|), input := data);
    assert ms[1..] == [StartWrite(data)] && [StartWrite(data)][1..] == [];
    assert CanGo(s1, []) && After(s1, []) == s1;
    assert CanGo(s.(reader := In(n)), [StartWrite(data)]) && After(s.(reader := In(n)), [StartWrite(data)]) == s1;
  }
}

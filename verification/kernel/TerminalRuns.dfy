/** Typing and reading at a terminal, interleaved (linux-0.11/kernel/chr_drv/tty_io.c). Typing is an interrupt, which
    runs copy_to_cooked as a whole; tty_read has interrupts on, so that it is split here into the test that the queue
    is not empty, GETCH, and the update of the counter. Processes do not preempt each other in the kernel: there is
    one reader at a time inside the loop. */
module TerminalRuns {
  import opened Basics
  import opened LineDiscipline

  /** Where tty_read is, with the number of characters still wanted. Ready: it has found a character, GETCH is next.
      Taken: GETCH is done, the counter is next. Again: the test at the end of the loop is next. */
  datatype Reader = Idle | Ready(nr: nat) | Taken(nr: nat, c: int) | Again(nr: nat)

  /** line: the terminal; raw: characters not yet cooked; read: everything readers have taken out of the queue. */
  datatype Terminal = Terminal(line: Line, raw: seq<int>, read: seq<int>, at: Reader)

  /** Keys: an interrupt, characters arrive and are cooked as far as there is room. Begin: the test at the top of
      tty_read's loop; it has three parts, and passes if it would pass at the time of the last. Get: GETCH, with what
      is in the buffer for the case that the queue has become empty. Settle: the counter, and the end of the read or
      of the character. Test: the test at the end of the loop. */
  datatype Event = Keys(input: seq<int>) | Begin(nr: nat) | Get(stale: seq<int>) | Settle | Test

  predicate Enabled(x: Terminal, e: Event) {
    match e
    case Keys(_) => true
    case Begin(nr) => x.at.Idle? && nr > 0
    case Get(stale) => x.at.Ready? && |stale| == TTY_BUF_SIZE
    case Settle => x.at.Taken?
    case Test => x.at.Again?
  }

  function Apply(tm: Termios, x: Terminal, e: Event): Terminal
    requires Enabled(x, e)
  {
    match e
    case Keys(input) => var (s, left) := CopyToCooked(tm, x.line, x.raw + input); x.(line := s, raw := left)
    case Begin(nr) => if MustWait(tm, x.line) then x else x.(at := Ready(nr))
    case Get(stale) =>
      // the tail passes the head of an empty queue, which is then full
      var all := if x.line.q == [] then stale else x.line.q;
      x.(line := x.line.(q := all[1..]), read := x.read + [all[0]], at := Taken(x.at.nr, all[0]))
    case Settle =>
      var c := x.at.c;
      x.(line := x.line.(data := x.line.data - if Ends(tm, c) then 1 else 0),
         at := if (c == tm.eof && tm.canon) || x.at.nr <= 1 then Idle else Again(x.at.nr - 1))
    case Test => x.(at := if x.line.q == [] then Idle else Ready(x.at.nr))
  }

  /** GETCH finds a character in the queue. */
  predicate Stocked(x: Terminal, e: Event) { e.Get? ==> x.line.q != [] }

  predicate Possible(tm: Termios, x: Terminal, es: seq<Event>)
    decreases |es|
  {
    es == [] || (Enabled(x, es[0]) && Possible(tm, Apply(tm, x, es[0]), es[1..]))
  }

  function Final(tm: Termios, x: Terminal, es: seq<Event>): Terminal
    requires Possible(tm, x, es)
    decreases |es|
  {
    if es == [] then x else Final(tm, Apply(tm, x, es[0]), es[1..])
  }

  predicate AllStocked(tm: Termios, x: Terminal, es: seq<Event>)
    requires Possible(tm, x, es)
    decreases |es|
  {
    es == [] || (Stocked(x, es[0]) && AllStocked(tm, Apply(tm, x, es[0]), es[1..]))
  }

  const IDLE_TTY := Terminal(Line([], 0, false, 0, 0), [], [], Idle)

  // ---- The queue and its counter ----

  /** A line end that GETCH has taken and the counter does not know of yet. */
  function Owed(tm: Termios, at: Reader): nat { if at.Taken? && Ends(tm, at.c) then 1 else 0 }

  ghost predicate Right(tm: Termios, x: Terminal) {
    Inv(tm, x.line.(data := x.line.data - Owed(tm, x.at)))
  }

  /** The first n characters of the queue have gone to a reader. */
  ghost predicate Moved(x: Terminal, x': Terminal, n: int) {
    0 <= n <= |x.line.q| && x'.read == x.read + x.line.q[..n] && x'.line.q == x.line.q[n..]
  }

  lemma {:induction false} CopyShift(tm: Termios, s: Line, input: seq<int>, k: int)
    ensures var (s', left) := CopyToCooked(tm, s, input);
            CopyToCooked(tm, s.(data := s.data + k), input) == (s'.(data := s'.data + k), left)
    decreases |input|
  {
    hide Cooked, Killed, Erased, Ends;
    if input != [] && |s.q| < ROOM {
      assert Type(tm, s.(data := s.data + k), input[0]) ==
             Type(tm, s, input[0]).(data := Type(tm, s, input[0]).data + k);
      CopyShift(tm, Type(tm, s, input[0]), input[1..], k);
    }
  }

  /** A step keeps the queue and the counter right, and a reader's step moves characters from the front of the queue
      to the reader and changes nothing else, as long as GETCH finds one. */
  lemma StepKeeps(tm: Termios, x: Terminal, e: Event)
    requires Right(tm, x) && Enabled(x, e) && Stocked(x, e)
    ensures Right(tm, Apply(tm, x, e))
    ensures if e.Keys? then Apply(tm, x, e).read == x.read
            else Apply(tm, x, e).raw == x.raw && Moved(x, Apply(tm, x, e), if e.Get? then 1 else 0)
  {
    hide CopyToCooked, MustWait, Count, Ends;
    match e
    case Keys(input) =>
      var s := x.line.(data := x.line.data - Owed(tm, x.at));
      CopyKeeps(tm, s, x.raw + input);
      CopyShift(tm, s, x.raw + input, Owed(tm, x.at));
    case Get(_) =>
      CountOne(tm, x.line.q[1..], x.line.q[0]);
      assert x.line.q == [x.line.q[0]] + x.line.q[1..];
    case _ =>
  }

  /** In every state the counter is exact and the queue within bounds, and no step of a reader changes what has been
      read and what is queued, taken together. */
  ghost predicate AllRight(tm: Termios, x: Terminal, es: seq<Event>)
    requires Possible(tm, x, es)
    decreases |es|
  {
    && Right(tm, x)
    && (es == []
        || (&& (es[0].Keys? || Apply(tm, x, es[0]).read + Apply(tm, x, es[0]).line.q == x.read + x.line.q)
            && AllRight(tm, Apply(tm, x, es[0]), es[1..])))
  }

  /** Over every interleaving the counter is exact, the queue never overflows, and readers get what is in it, if and
      only if the queue is never empty when a reader that has seen a character in it comes to take one. */
  lemma {:induction false} RightIffStocked(tm: Termios, x: Terminal, es: seq<Event>)
    requires Right(tm, x) && Possible(tm, x, es)
    ensures AllRight(tm, x, es) <==> AllStocked(tm, x, es)
    decreases |es|
  {
    hide Right, Enabled, Moved;
    if es != [] {
      if Stocked(x, es[0]) {
        StepKeeps(tm, x, es[0]);
        if !es[0].Keys? { MovedTogether(x, Apply(tm, x, es[0]), if es[0].Get? then 1 else 0); }
        hide Apply;
        RightIffStocked(tm, Apply(tm, x, es[0]), es[1..]);
      } else {
        Underflow(tm, x, es[0]);
      }
    }
  }

  lemma MovedTogether(x: Terminal, x': Terminal, n: int)
    requires Moved(x, x', n)
    ensures x'.read + x'.line.q == x.read + x.line.q && x.read <= x'.read
  {
    assert x.line.q == x.line.q[..n] + x.line.q[n..];
  }

  /** GETCH on an empty queue gives 1024 characters that nobody has typed. */
  lemma Underflow(tm: Termios, x: Terminal, e: Event)
    requires Enabled(x, e) && !Stocked(x, e)
    ensures var x' := Apply(tm, x, e); |x'.read + x'.line.q| == |x.read + x.line.q| + TTY_BUF_SIZE
  {
  }

  /** What has been read stays read, and the queue is right at the end. */
  lemma {:induction false} RunKeeps(tm: Termios, x: Terminal, es: seq<Event>)
    requires Right(tm, x) && Possible(tm, x, es) && AllStocked(tm, x, es)
    ensures Right(tm, Final(tm, x, es)) && x.read <= Final(tm, x, es).read
    decreases |es|
  {
    hide Apply, Right, Enabled, Stocked, Moved;
    if es != [] {
      StepKeeps(tm, x, es[0]);
      if !es[0].Keys? { MovedTogether(x, Apply(tm, x, es[0]), if es[0].Get? then 1 else 0); }
      RunKeeps(tm, Apply(tm, x, es[0]), es[1..]);
    }
  }

  // ---- No finished line is lost ----

  /** Back to the last end of a line, wherever it is. */
  lemma {:induction false} KilledAppend(tm: Termios, a: seq<int>, b: seq<int>)
    ensures Killed(tm, a + b) == if Count(tm, b) == 0 then Killed(tm, a) else a + Killed(tm, b)
    ensures Count(tm, b) == 0 ==> Killed(tm, b) == []
  {
    if b == [] {
      assert a + b == a;
    } else {
      assert (a + b)[..|a + b| - 1] == a + b[..|b| - 1] && (a + b)[|a + b| - 1] == b[|b| - 1];
      if !Ends(tm, b[|b| - 1]) { KilledAppend(tm, a, b[..|b| - 1]); }
    }
  }

  /** How many characters of the unfinished line there are. */
  function Unfinished(tm: Termios, q: seq<int>): nat { |q| - |Killed(tm, q)| }

  lemma UnfinishedAppend(tm: Termios, a: seq<int>, b: seq<int>)
    ensures Unfinished(tm, b) <= Unfinished(tm, a + b)
    ensures Unfinished(tm, a + b) == Unfinished(tm, b) <==> Killed(tm, a + b) == a + Killed(tm, b)
  {
    KilledAppend(tm, a, b);
    assert Killed(tm, b) <= b;
  }

  /** Finished lines pass to the reader unchanged, whatever is typed and read meanwhile. */
  lemma {:induction false} LinesArrive(tm: Termios, x: Terminal, es: seq<Event>)
    requires tm.canon && Right(tm, x) && Possible(tm, x, es) && AllStocked(tm, x, es)
    ensures x.read + Killed(tm, x.line.q) <= Final(tm, x, es).read + Final(tm, x, es).line.q
    decreases |es|
  {
    hide Apply, Right, Killed, Enabled, Stocked;
    if es == [] {
      assert Killed(tm, x.line.q) <= x.line.q;
    } else {
      StepKeeps(tm, x, es[0]);
      StepLines(tm, x, es[0]);
      LinesArrive(tm, Apply(tm, x, es[0]), es[1..]);
    }
  }

  lemma StepLines(tm: Termios, x: Terminal, e: Event)
    requires tm.canon && Right(tm, x) && Enabled(x, e) && Stocked(x, e)
    ensures x.read + Killed(tm, x.line.q) <= Apply(tm, x, e).read + Killed(tm, Apply(tm, x, e).line.q)
  {
    hide Right, CopyToCooked, MustWait, Killed;
    StepKeeps(tm, x, e);
    if e.Keys? {
      KeysLines(tm, x.line, x.raw + e.input);
    } else {
      ReadLines(tm, x, Apply(tm, x, e), if e.Get? then 1 else 0);
    }
  }

  lemma KeysLines(tm: Termios, s: Line, input: seq<int>)
    requires tm.canon
    ensures Killed(tm, s.q) <= Killed(tm, CopyToCooked(tm, s, input).0.q)
  {
    hide CopyToCooked, Killed, EditAll, IsEditor;
    var d := QueueIsEditor(tm, s.q);
    CopyIsEdit(tm, s, d, input);
    EditorLines(tm, d);
    EditorLines(tm, EditAll(tm, d, input[..|input| - |CopyToCooked(tm, s, input).1|]));
  }

  lemma ReadLines(tm: Termios, x: Terminal, x': Terminal, n: int)
    requires Moved(x, x', n)
    ensures x.read + Killed(tm, x.line.q) <= x'.read + Killed(tm, x'.line.q)
  {
    hide Killed;
    var out := x.line.q[..n];
    assert x.line.q == out + x'.line.q;
    KilledAppend(tm, out, x'.line.q);
    assert Killed(tm, out) <= out && x'.read == x.read + out;
    if Count(tm, x'.line.q) != 0 {
      assert x.read + (out + Killed(tm, x'.line.q)) == x.read + out + Killed(tm, x'.line.q);
    }
  }

  lemma EditorLines(tm: Termios, e: Editor)
    requires IsEditor(tm, e)
    ensures Killed(tm, e.done + e.line) == e.done
  {
    KilledLine(tm, e);
  }

  // ---- When the queue can become empty under a reader ----

  predicate Erases(tm: Termios, c: int) {
    Cooked(tm, c) == Some(tm.erase as int) || Cooked(tm, c) == Some(tm.kill as int)
  }

  /** One key empties a queue only if it is an erase or kill key in canonical mode and no line in it is finished. */
  lemma TypeEmpties(tm: Termios, s: Line, c: int)
    requires s.q != [] && Type(tm, s, c).q == []
    ensures tm.canon && Count(tm, s.q) == 0 && Erases(tm, c)
  {
    hide Cooked, Killed;
    KilledIs(tm, s.q);
    CountErased(tm, s.q);
  }

  /** What copy_to_cooked makes of one key, key after key. */
  lemma {:induction false} CopyEmpties(tm: Termios, s: Line, input: seq<int>)
    requires s.q != [] && CopyToCooked(tm, s, input).0.q == []
    ensures tm.canon && exists c :: c in input && Erases(tm, c)
    decreases |input|
  {
    hide Type, Erases;
    if Type(tm, s, input[0]).q == [] {
      TypeEmpties(tm, s, input[0]);
      assert input[0] in input;
    } else {
      CopyEmpties(tm, Type(tm, s, input[0]), input[1..]);
      var c :| c in input[1..] && Erases(tm, c);
      assert c in input;
    }
  }

  lemma {:induction false} LeftOver(tm: Termios, s: Line, input: seq<int>)
    ensures forall c :: c in CopyToCooked(tm, s, input).1 ==> c in input
    decreases |input|
  {
    hide Type;
    if input != [] && |s.q| < ROOM { LeftOver(tm, Type(tm, s, input[0]), input[1..]); }
  }

  function Typed(es: seq<Event>): seq<int> {
    if es == [] then [] else (if es[0].Keys? then es[0].input else []) + Typed(es[1..])
  }

  /** While a reader is between its test and GETCH there are only interrupts. They can take its character away only in
      canonical mode, when no line in the queue was finished at the test, and with an erase or kill key. */
  lemma {:induction false} Emptied(tm: Termios, x: Terminal, es: seq<Event>)
    requires x.line.q != [] && Possible(tm, x, es) && (forall e :: e in es ==> e.Keys?) && Final(tm, x, es).line.q == []
    ensures tm.canon && Count(tm, x.line.q) == 0
    ensures exists c :: c in x.raw + Typed(es) && Erases(tm, c)
    decreases |es|
  {
    hide CopyToCooked, Erases, Count, Killed;
    var (all, x1) := (x.raw + es[0].input, Apply(tm, x, es[0]));
    LeftOver(tm, x.line, all);
    if x1.line.q == [] {
      CopyEmpties(tm, x.line, all);
      var c :| c in all && Erases(tm, c);
      assert c in x.raw + Typed(es);
    } else {
      Emptied(tm, x1, es[1..]);
      var c :| c in x1.raw + Typed(es[1..]) && Erases(tm, c);
      assert c in x.raw + Typed(es);
    }
    KeysLines(tm, x.line, all);
    KilledIs(tm, x.line.q);
    KilledIs(tm, x1.line.q);
    CountNothing(tm, Killed(tm, x.line.q), Killed(tm, x1.line.q));
  }

  lemma CountNothing(tm: Termios, a: seq<int>, b: seq<int>)
    requires a <= b && (a == [] || Ends(tm, a[|a| - 1]))
    ensures Count(tm, b) == 0 ==> Count(tm, a) == 0
    ensures b == [] ==> Count(tm, a) == 0
  {
    CountAppend(tm, a, b[|a|..]);
    assert a + b[|a|..] == b;
  }

  // ---- A read that is left alone ----

  /** GETCH and the counter, without interrupts between. */
  function Turn(tm: Termios, x: Terminal): Terminal
    requires x.at.Ready? && x.line.q != []
  {
    var c := x.line.q[0];
    Terminal(x.line.(q := x.line.q[1..], data := x.line.data - if Ends(tm, c) then 1 else 0), x.raw, x.read + [c],
             if (c == tm.eof && tm.canon) || x.at.nr <= 1 then Idle else Again(x.at.nr - 1))
  }

  /** What is still to do of the inner loop. */
  function Alone(tm: Termios, x: Terminal): (es: seq<Event>)
    requires x.at.Ready? && x.line.q != []
    decreases |x.line.q|
  {
    var x2 := Turn(tm, x);
    [Get(seq(TTY_BUF_SIZE, _ => 0)), Settle]
    + if x2.at.Idle? then [] else [Test] + if x2.line.q == [] then [] else Alone(tm, Apply(tm, x2, Test))
  }

  lemma OneMore(tm: Termios, x: Terminal, e: Event, es: seq<Event>)
    requires Enabled(x, e) && Stocked(x, e) && Possible(tm, Apply(tm, x, e), es) && AllStocked(tm, Apply(tm, x, e), es)
    ensures Possible(tm, x, [e] + es) && AllStocked(tm, x, [e] + es)
    ensures Final(tm, x, [e] + es) == Final(tm, Apply(tm, x, e), es)
  {
    assert ([e] + es)[1..] == es;
  }

  lemma TurnRun(tm: Termios, x: Terminal, es: seq<Event>)
    requires x.at.Ready? && x.line.q != [] && Possible(tm, Turn(tm, x), es) && AllStocked(tm, Turn(tm, x), es)
    ensures var all := [Get(seq(TTY_BUF_SIZE, _ => 0)), Settle] + es;
            Possible(tm, x, all) && AllStocked(tm, x, all) && Final(tm, x, all) == Final(tm, Turn(tm, x), es)
  {
    hide Possible, AllStocked, Final;
    var get := Get(seq(TTY_BUF_SIZE, _ => 0));
    OneMore(tm, Apply(tm, x, get), Settle, es);
    OneMore(tm, x, get, [Settle] + es);
    assert [get, Settle] + es == [get] + ([Settle] + es);
  }

  /** A read gets past its test exactly if there is something to read, in canonical mode a finished line, unless the
      queue is nearly full; until then nothing happens, and GETCH directly after it finds a character. */
  lemma BeginsExactly(tm: Termios, x: Terminal, nr: nat)
    requires Right(tm, x) && x.at.Idle? && nr > 0
    ensures Enabled(x, Begin(nr))
    ensures var q := x.line.q;
            Apply(tm, x, Begin(nr)) ==
              if && q != []
                 && (tm.canon ==> ROOM - |q| <= 20 || exists i :: 0 <= i < |q| && (q[i] == NL || q[i] == tm.eof))
              then x.(at := Ready(nr)) else x
    ensures forall stale :: Apply(tm, x, Begin(nr)).at.Ready? ==> Stocked(Apply(tm, x, Begin(nr)), Get(stale))
  {
    hide Inv, MustWait;
    WaitsForLine(tm, x.line);
  }

  lemma {:induction false} CopyTwice(tm: Termios, s: Line, a: seq<int>, b: seq<int>)
    ensures var (s', left) := CopyToCooked(tm, s, a); CopyToCooked(tm, s, a + b) == CopyToCooked(tm, s', left + b)
    decreases |a|
  {
    hide Type;
    if a != [] && |s.q| < ROOM {
      assert (a + b)[0] == a[0] && (a + b)[1..] == a[1..] + b;
      CopyTwice(tm, Type(tm, s, a[0]), a[1..], b);
    } else if a == [] {
      assert a + b == b;
    }
  }

  /** It makes no difference in how many interrupts keys arrive; what finds the queue full waits. */
  lemma KeysInTwo(tm: Termios, x: Terminal, a: seq<int>, b: seq<int>)
    ensures Apply(tm, Apply(tm, x, Keys(a)), Keys(b)) == Apply(tm, x, Keys(a + b))
    ensures |x.line.q| >= ROOM ==> Apply(tm, x, Keys(a)) == x.(raw := x.raw + a)
  {
    assert x.raw + (a + b) == x.raw + a + b;
    CopyTwice(tm, x.line, x.raw + a, b);
  }

  /** Without interrupts the loop is Take, which the code is proved to compute. */
  lemma {:induction false} AloneIsTake(tm: Termios, x: Terminal)
    requires x.at.Ready? && x.at.nr > 0 && x.line.q != []
    ensures Possible(tm, x, Alone(tm, x)) && AllStocked(tm, x, Alone(tm, x))
    ensures var r := Take(tm, x.line, x.at.nr);
            Final(tm, x, Alone(tm, x)) ==
              Terminal(r.rest, x.raw, x.read + r.bytes + (if r.eof then [tm.eof as int] else []), Idle)
    decreases |x.line.q|
  {
    hide Ends, Possible, AllStocked, Final, Take;
    var (x2, c) := (Turn(tm, x), x.line.q[0]);
    NoMore(tm, x2);
    if x2.at.Idle? {
      TakeLast(tm, x.line, x.at.nr);
      assert x.read + [c] + [] == x.read + [c] && x.read + [] == x.read;
      TurnRun(tm, x, []);
    } else {
      var x3 := Apply(tm, x2, Test);
      TakeFirst(tm, x.line, x.at.nr, x2.line);
      var r := Take(tm, x2.line, x.at.nr - 1);
      Bracket(x.read, c, r.bytes, if r.eof then [tm.eof as int] else []);
      NoMore(tm, x3);
      var rest := if x2.line.q == [] then [] else Alone(tm, x3);
      if x2.line.q == [] { assert x.read + [c] + [] == x.read + [c]; } else { AloneIsTake(tm, x3); }
      OneMore(tm, x2, Test, rest);
      TurnRun(tm, x, [Test] + rest);
    }
  }

  lemma Bracket(a: seq<int>, c: int, b: seq<int>, end: seq<int>)
    ensures a + [c] + b + end == a + ([c] + b) + end
  {
  }

  lemma NoMore(tm: Termios, x: Terminal)
    ensures Possible(tm, x, []) && AllStocked(tm, x, []) && Final(tm, x, []) == x
  {
  }

  /** The last character of a read. */
  lemma TakeLast(tm: Termios, s: Line, nr: nat)
    requires s.q != [] && nr > 0 && ((s.q[0] == tm.eof && tm.canon) || nr == 1)
    ensures var (c, r) := (s.q[0], Take(tm, s, nr));
            && r.rest == s.(q := s.q[1..], data := s.data - if Ends(tm, c) then 1 else 0)
            && r.eof == (c == tm.eof && tm.canon) && r.bytes == if r.eof then [] else [c]
  {
  }

  lemma TakeFirst(tm: Termios, s: Line, nr: nat, s': Line)
    requires s.q != [] && nr > 1 && !(s.q[0] == tm.eof && tm.canon)
    requires s' == s.(q := s.q[1..], data := s.data - if Ends(tm, s.q[0]) then 1 else 0)
    ensures var r := Take(tm, s', nr - 1); Take(tm, s, nr) == r.(bytes := [s.q[0]] + r.bytes)
    ensures s'.q == [] ==> Take(tm, s', nr - 1) == Chunk([], s', false)
  {
  }

  // ---- The editor, from end to end ----

  /** How much of the unfinished line a reader has already taken. */
  function Out(tm: Termios, read: seq<int>, q: seq<int>): int { Unfinished(tm, read + q) - Unfinished(tm, q) }

  /** A key that should delete what a reader has already taken. */
  predicate TooLate(tm: Termios, read: seq<int>, q: seq<int>, c: int) {
    Out(tm, read, q) > 0 && (c == tm.kill || (c == tm.erase && Unfinished(tm, q) == 0))
  }

  /** No key comes too late while the input is copied. */
  predicate InTime(tm: Termios, s: Line, read: seq<int>, input: seq<int>)
    decreases |input|
  {
    input == [] || |s.q| >= ROOM
    || (&& (Cooked(tm, input[0]).Some? ==> !TooLate(tm, read, s.q, Cooked(tm, input[0]).value))
        && InTime(tm, Type(tm, s, input[0]), read, input[1..]))
  }

  /** The editor stands where the reader and the queue stand together. */
  ghost predicate Agree(tm: Termios, read: seq<int>, q: seq<int>, e: Editor) {
    IsEditor(tm, e) && read + q == e.done + e.line
  }

  /** The editor has deleted more than the queue could. */
  ghost predicate Apart(tm: Termios, read: seq<int>, q: seq<int>, e: Editor) {
    IsEditor(tm, e) && Unfinished(tm, q) <= |e.line| && |read + q| > |e.done + e.line|
  }

  lemma AgreeUnfinished(tm: Termios, read: seq<int>, q: seq<int>, e: Editor)
    requires Agree(tm, read, q, e)
    ensures Killed(tm, read + q) == e.done && Unfinished(tm, read + q) == |e.line| && Unfinished(tm, q) <= |e.line|
    ensures Out(tm, read, q) == 0 <==> read + Killed(tm, q) == e.done
  {
    hide Killed;
    KilledLine(tm, e);
    UnfinishedAppend(tm, read, q);
  }

  lemma ErasedIs(tm: Termios, q: seq<int>)
    ensures Erased(tm, q) == if Unfinished(tm, q) > 0 then q[..|q| - 1] else q
    ensures Unfinished(tm, Erased(tm, q)) == if Unfinished(tm, q) > 0 then Unfinished(tm, q) - 1 else 0
  {
  }

  lemma KilledTwice(tm: Termios, q: seq<int>)
    ensures Unfinished(tm, Killed(tm, q)) == 0
  {
  }

  lemma Appended(tm: Termios, q: seq<int>, c: int)
    ensures Unfinished(tm, q + [c]) == if Ends(tm, c) then 0 else Unfinished(tm, q) + 1
  {
    assert (q + [c])[..|q|] == q;
  }

  /** One key: the editor and the queue stay together, unless it comes too late. */
  lemma EnterAgrees(tm: Termios, s: Line, read: seq<int>, e: Editor, c: int)
    requires tm.canon && Agree(tm, read, s.q, e)
    ensures var (s', e') := (Enter(tm, s, c), Edit(tm, e, c));
            if TooLate(tm, read, s.q, c) then Apart(tm, read, s'.q, e') else Agree(tm, read, s'.q, e')
  {
    hide Killed, Erased, Unfinished, IsEditor, Out;
    EditKeeps(tm, e, c);
    if c == tm.kill {
      KillAgrees(tm, read, s.q, e);
    } else if c == tm.erase {
      EraseAgrees(tm, read, s.q, e);
    } else {
      assert read + (s.q + [c]) == read + s.q + [c];
      assert e.done + (e.line + [c]) == e.done + e.line + [c];
      assert e.done + e.line + [c] + [] == e.done + e.line + [c];
    }
  }

  lemma KillAgrees(tm: Termios, read: seq<int>, q: seq<int>, e: Editor)
    requires Agree(tm, read, q, e)
    ensures var d := e.(line := []);
            if Out(tm, read, q) > 0 then Apart(tm, read, Killed(tm, q), d) else Agree(tm, read, Killed(tm, q), d)
  {
    hide Killed;
    AgreeUnfinished(tm, read, q, e);
    KilledTwice(tm, q);
    UnfinishedIs(tm, q);
    assert e.done + [] == e.done;
  }

  lemma EraseAgrees(tm: Termios, read: seq<int>, q: seq<int>, e: Editor)
    requires Agree(tm, read, q, e)
    ensures var d := if e.line == [] then e else e.(line := e.line[..|e.line| - 1]);
            if Out(tm, read, q) > 0 && Unfinished(tm, q) == 0 then Apart(tm, read, Erased(tm, q), d)
                else Agree(tm, read, Erased(tm, q), d)
  {
    hide Killed, Erased;
    AgreeUnfinished(tm, read, q, e);
    ErasedIs(tm, q);
    UnfinishedIs(tm, q);
    if Unfinished(tm, q) > 0 {
      assert read + q[..|q| - 1] == (read + q)[..|read + q| - 1];
      assert e.done + e.line[..|e.line| - 1] == (e.done + e.line)[..|e.done + e.line| - 1];
    }
  }

  /** Once the editor has deleted more, it stays so. */
  lemma EnterApart(tm: Termios, s: Line, read: seq<int>, e: Editor, c: int)
    requires tm.canon && Apart(tm, read, s.q, e)
    ensures Apart(tm, read, Enter(tm, s, c).q, Edit(tm, e, c))
  {
    hide Killed, Erased, Unfinished, IsEditor;
    KilledTwice(tm, s.q);
    ErasedIs(tm, s.q);
    Appended(tm, s.q, c);
    UnfinishedIs(tm, s.q);
    EditKeeps(tm, e, c);
  }

  lemma UnfinishedIs(tm: Termios, q: seq<int>)
    ensures |Killed(tm, q)| + Unfinished(tm, q) == |q|
  {
    assert Killed(tm, q) <= q;
  }

  lemma EditKeeps(tm: Termios, e: Editor, c: int)
    requires IsEditor(tm, e)
    ensures IsEditor(tm, Edit(tm, e, c))
  {
  }

  lemma {:induction false} CopyAgrees(tm: Termios, s: Line, read: seq<int>, e: Editor, input: seq<int>)
    requires tm.canon && (Agree(tm, read, s.q, e) || Apart(tm, read, s.q, e))
    ensures var (s', left) := CopyToCooked(tm, s, input);
            && |left| <= |input|
            && var e' := EditAll(tm, e, input[..|input| - |left|]);
               if Agree(tm, read, s.q, e) && InTime(tm, s, read, input) then Agree(tm, read, s'.q, e')
                   else Apart(tm, read, s'.q, e')
    decreases |input|
  {
    hide Agree, Apart, TooLate, Edit, Enter, Cooked;
    AgreeOrApart(tm, read, s.q, e);
    if input != [] && |s.q| < ROOM {
      var e1 := match Cooked(tm, input[0]) case None => e case Some(c) => Edit(tm, e, c);
      match Cooked(tm, input[0]) {
        case None =>
        case Some(c) =>
          if Agree(tm, read, s.q, e) {
            EnterAgrees(tm, s, read, e, c);
          } else {
            EnterApart(tm, s, read, e, c);
          }
      }
      AgreeOrApart(tm, read, Type(tm, s, input[0]).q, e1);
      CopyAgrees(tm, Type(tm, s, input[0]), read, e1, input[1..]);
      var left := CopyToCooked(tm, s, input).1;
      var taken := input[..|input| - |left|];
      assert taken[0] == input[0] && taken[1..] == input[1..][..|input| - 1 - |left|];
    } else {
      assert input[..|input| - |input|] == [];
    }
  }

  lemma AgreeOrApart(tm: Termios, read: seq<int>, q: seq<int>, e: Editor)
    ensures !(Agree(tm, read, q, e) && Apart(tm, read, q, e))
  {
  }

  /** Reading changes nothing of this. */
  lemma ReadAgrees(tm: Termios, x: Terminal, x': Terminal, n: int, e: Editor)
    requires Moved(x, x', n)
    ensures Agree(tm, x.read, x.line.q, e) ==> Agree(tm, x'.read, x'.line.q, e)
    ensures Apart(tm, x.read, x.line.q, e) ==> Apart(tm, x'.read, x'.line.q, e)
  {
    hide Killed, IsEditor;
    UnfinishedAppend(tm, x.line.q[..n], x'.line.q);
    assert x.line.q == x.line.q[..n] + x'.line.q;
    assert x.read + x.line.q == x.read + x.line.q[..n] + x'.line.q;
  }

  /** What the editor makes of the keys that are taken in a run. */
  function Edited(tm: Termios, x: Terminal, e: Editor, es: seq<Event>): Editor
    requires Possible(tm, x, es)
    decreases |es|
  {
    if es == [] then e else Edited(tm, Apply(tm, x, es[0]), EditedBy(tm, x, e, es[0]), es[1..])
  }

  function EditedBy(tm: Termios, x: Terminal, e: Editor, event: Event): Editor {
    match event
    case Keys(input) =>
      var (all, left) := (x.raw + input, CopyToCooked(tm, x.line, x.raw + input).1);
      EditAll(tm, e, all[..if |left| <= |all| then |all| - |left| else 0])
    case _ => e
  }

  /** No key of the run comes too late. */
  predicate AllInTime(tm: Termios, x: Terminal, es: seq<Event>)
    requires Possible(tm, x, es)
    decreases |es|
  {
    es == [] || ((es[0].Keys? ==> InTime(tm, x.line, x.read, x.raw + es[0].input)) &&
        AllInTime(tm, Apply(tm, x, es[0]), es[1..]))
  }

  lemma {:induction false} RunAgrees(tm: Termios, x: Terminal, e: Editor, es: seq<Event>)
    requires tm.canon && Right(tm, x) && Possible(tm, x, es) && AllStocked(tm, x, es)
    requires Agree(tm, x.read, x.line.q, e) || Apart(tm, x.read, x.line.q, e)
    ensures var (y, d) := (Final(tm, x, es), Edited(tm, x, e, es));
            if Agree(tm, x.read, x.line.q, e) && AllInTime(tm, x, es) then Agree(tm, y.read, y.line.q, d)
                else Apart(tm, y.read, y.line.q, d)
    decreases |es|
  {
    hide Apply, Right, Agree, Apart, InTime, EditedBy, Enabled, Stocked;
    AgreeOrApart(tm, x.read, x.line.q, e);
    if es != [] {
      StepKeeps(tm, x, es[0]);
      StepAgrees(tm, x, e, es[0]);
      AgreeOrApart(tm, Apply(tm, x, es[0]).read, Apply(tm, x, es[0]).line.q, EditedBy(tm, x, e, es[0]));
      RunAgrees(tm, Apply(tm, x, es[0]), EditedBy(tm, x, e, es[0]), es[1..]);
    }
  }

  lemma StepAgrees(tm: Termios, x: Terminal, e: Editor, event: Event)
    requires tm.canon && Right(tm, x) && Enabled(x, event) && Stocked(x, event)
    requires Agree(tm, x.read, x.line.q, e) || Apart(tm, x.read, x.line.q, e)
    ensures var (y, d) := (Apply(tm, x, event), EditedBy(tm, x, e, event));
            if Agree(tm, x.read, x.line.q, e) && (event.Keys? ==> InTime(tm, x.line, x.read, x.raw + event.input))
            then Agree(tm, y.read, y.line.q, d) else Apart(tm, y.read, y.line.q, d)
  {
    hide Right, Agree, Apart, InTime, MustWait, CopyToCooked;
    AgreeOrApart(tm, x.read, x.line.q, e);
    if event.Keys? {
      CopyAgrees(tm, x.line, x.read, e, x.raw + event.input);
    } else {
      StepKeeps(tm, x, event);
      ReadAgrees(tm, x, Apply(tm, x, event), if event.Get? then 1 else 0, e);
    }
  }

  /** From an idle terminal, over every interleaving of typing and reading in which GETCH always finds a character:
      what readers have got and what is in the queue are together exactly what a line editor makes of the keys, if and
      only if no erase or kill is typed when the characters it should delete have already been read. */
  lemma EditorExactly(tm: Termios, es: seq<Event>)
    requires tm.canon && Possible(tm, IDLE_TTY, es) && AllStocked(tm, IDLE_TTY, es)
    ensures var (y, d) := (Final(tm, IDLE_TTY, es), Edited(tm, IDLE_TTY, Editor([], []), es));
            y.read + y.line.q == d.done + d.line <==> AllInTime(tm, IDLE_TTY, es)
  {
    hide Apply, AllInTime, Edited, Final, Possible, AllStocked;
    RunAgrees(tm, IDLE_TTY, Editor([], []), es);
  }

  // ---- Both conditions can fail ----

  /** The console's settings (linux-0.11/include/linux/tty.h:63): erase is 127. */
  const CONSOLE := Termios(true, false, false, false, true, true, 21, 127, 4, 19, 17, 3, 28)

  /** Keys "x", newline and "y"; a reader that wants three characters takes the first two and sees the third. */
  function HalfRead(): seq<Event> {
    var turn := [Get(seq(TTY_BUF_SIZE, _ => 0)), Settle];
    [Keys([120, NL, 121])] + ([Begin(3)] + (turn + ([Test] + (turn + [Test]))))
  }

  const X_READ := Terminal(Line([NL, 121], 1, false, 0, 0), [], [120], Ready(2))
  const NL_READ := Terminal(Line([121], 0, false, 0, 0), [], [120, NL], Ready(1))

  lemma SecondTurn()
    ensures var es := [Get(seq(TTY_BUF_SIZE, _ => 0)), Settle] + [Test];
            Possible(CONSOLE, X_READ, es) && AllStocked(CONSOLE, X_READ, es) && Final(CONSOLE, X_READ, es) == NL_READ
  {
    hide Possible, AllStocked, Final;
    NoMore(CONSOLE, NL_READ);
    OneMore(CONSOLE, NL_READ.(at := Again(1)), Test, []);
    assert [Test] + [] == [Test] && [NL, 121][1..] == [121] && [120] + [NL] == [120, NL];
    TurnRun(CONSOLE, X_READ, [Test]);
  }

  lemma FirstTurn(es: seq<Event>)
    requires Possible(CONSOLE, X_READ, es) && AllStocked(CONSOLE, X_READ, es)
    ensures var x := Terminal(Line([120, NL, 121], 1, false, 0, 0), [], [], Ready(3));
            var all := [Get(seq(TTY_BUF_SIZE, _ => 0)), Settle] + ([Test] + es);
            && Possible(CONSOLE, x, all) && AllStocked(CONSOLE, x, all)
            && Final(CONSOLE, x, all) == Final(CONSOLE, X_READ, es)
  {
    hide Possible, AllStocked, Final;
    assert [120, NL, 121][1..] == [NL, 121] && [] + [120] == [120];
    OneMore(CONSOLE, X_READ.(at := Again(2)), Test, es);
    TurnRun(CONSOLE, Terminal(Line([120, NL, 121], 1, false, 0, 0), [], [], Ready(3)), [Test] + es);
  }

  lemma ReadBegins(es: seq<Event>)
    requires var x := Terminal(Line([120, NL, 121], 1, false, 0, 0), [], [], Ready(3));
             Possible(CONSOLE, x, es) && AllStocked(CONSOLE, x, es)
    ensures var x := Terminal(Line([120, NL, 121], 1, false, 0, 0), [], [], Idle);
            && Possible(CONSOLE, x, [Begin(3)] + es) && AllStocked(CONSOLE, x, [Begin(3)] + es)
            && Final(CONSOLE, x, [Begin(3)] + es) == Final(CONSOLE, x.(at := Ready(3)), es)
  {
    hide Possible, AllStocked, Final;
    OneMore(CONSOLE, Terminal(Line([120, NL, 121], 1, false, 0, 0), [], [], Idle), Begin(3), es);
  }

  lemma HalfReadIs()
    ensures Possible(CONSOLE, IDLE_TTY, HalfRead()) && AllStocked(CONSOLE, IDLE_TTY, HalfRead())
    ensures AllInTime(CONSOLE, IDLE_TTY, HalfRead())
    ensures Final(CONSOLE, IDLE_TTY, HalfRead()) == NL_READ
  {
    hide Possible, AllStocked, Final, Apply, InTime, AllInTime;
    var rest := [Get(seq(TTY_BUF_SIZE, _ => 0)), Settle] + [Test];
    ConsoleCopies();
    SecondTurn();
    FirstTurn(rest);
    var read := [Get(seq(TTY_BUF_SIZE, _ => 0)), Settle] + ([Test] + rest);
    ReadBegins(read);
    OneMore(CONSOLE, IDLE_TTY, Keys([120, NL, 121]), [Begin(3)] + read);
    HalfInTime([Begin(3)] + read);
  }

  lemma HalfInTime(es: seq<Event>)
    requires Possible(CONSOLE, IDLE_TTY, [Keys([120, NL, 121])] + es) && forall e :: e in es ==> !e.Keys?
    ensures AllInTime(CONSOLE, IDLE_TTY, [Keys([120, NL, 121])] + es)
  {
    hide Apply, InTime;
    NothingRead(CONSOLE, IDLE_TTY.line, [120, NL, 121]);
    assert [] + [120, NL, 121] == [120, NL, 121];
    KeysFirst(CONSOLE, IDLE_TTY, [120, NL, 121], es);
  }

  lemma KeysFirst(tm: Termios, x: Terminal, input: seq<int>, es: seq<Event>)
    requires InTime(tm, x.line, x.read, x.raw + input) && Possible(tm, x, [Keys(input)] + es)
    requires forall e :: e in es ==> !e.Keys?
    ensures AllInTime(tm, x, [Keys(input)] + es)
  {
    hide Apply, InTime;
    assert ([Keys(input)] + es)[1..] == es;
    NoKeys(tm, Apply(tm, x, Keys(input)), es);
  }

  lemma ConsoleCopies()
    ensures Apply(CONSOLE, IDLE_TTY, Keys([120, NL, 121])) ==
            Terminal(Line([120, NL, 121], 1, false, 0, 0), [], [], Idle)
  {
    hide CopyToCooked;
    var s := IDLE_TTY.line;
    var (s1, s2) := (s.(q := [120]), s.(q := [120, NL], data := 1));
    assert [] + [120] == [120] && [120] + [NL] == [120, NL] && [120, NL] + [121] == [120, NL, 121];
    assert Type(CONSOLE, s, 120) == s1 && Type(CONSOLE, s1, NL) == s2;
    CopyNext(CONSOLE, s, 120, [NL, 121]);
    CopyNext(CONSOLE, s1, NL, [121]);
    CopyNext(CONSOLE, s2, 121, []);
    assert [] + [120, NL, 121] == [120] + [NL, 121] && [NL, 121] == [NL] + [121] && [121] == [121] + [];
  }

  lemma CopyNext(tm: Termios, s: Line, c: int, rest: seq<int>)
    requires |s.q| < ROOM
    ensures CopyToCooked(tm, s, [c] + rest) == CopyToCooked(tm, Type(tm, s, c), rest)
    ensures CopyToCooked(tm, s, []) == (s, []) && CopyToCooked(tm, Type(tm, s, c), []) == (Type(tm, s, c), [])
  {
    assert ([c] + rest)[1..] == rest;
  }

  /** What nobody has read cannot be erased too late. */
  lemma {:induction false} NothingRead(tm: Termios, s: Line, input: seq<int>)
    ensures InTime(tm, s, [], input)
    decreases |input|
  {
    hide Type;
    assert [] + s.q == s.q;
    if input != [] { NothingRead(tm, Type(tm, s, input[0]), input[1..]); }
  }

  lemma {:induction false} NoKeys(tm: Termios, x: Terminal, es: seq<Event>)
    requires Possible(tm, x, es) && forall e :: e in es ==> !e.Keys?
    ensures AllInTime(tm, x, es)
    decreases |es|
  {
    hide Apply;
    if es != [] { NoKeys(tm, Apply(tm, x, es[0]), es[1..]); }
  }

  lemma {:induction false} JoinRuns(tm: Termios, x: Terminal, a: seq<Event>, b: seq<Event>)
    requires Possible(tm, x, a) && Possible(tm, Final(tm, x, a), b)
    ensures Possible(tm, x, a + b) && Final(tm, x, a + b) == Final(tm, Final(tm, x, a), b)
    ensures AllStocked(tm, x, a + b) <==> AllStocked(tm, x, a) && AllStocked(tm, Final(tm, x, a), b)
    ensures AllInTime(tm, x, a + b) <==> AllInTime(tm, x, a) && AllInTime(tm, Final(tm, x, a), b)
    decreases |a|
  {
    hide Apply, InTime;
    if a == [] {
      assert a + b == b;
    } else {
      assert (a + b)[1..] == a[1..] + b && (a + b)[0] == a[0];
      JoinRuns(tm, Apply(tm, x, a[0]), a[1..], b);
    }
  }

  /** The erase key comes when the reader has seen the third character and has not taken it: GETCH finds nothing. */
  lemma EraseUnderReader(stale: seq<int>)
    requires |stale| == TTY_BUF_SIZE
    ensures Possible(CONSOLE, IDLE_TTY, HalfRead() + [Keys([127]), Get(stale)])
    ensures !AllStocked(CONSOLE, IDLE_TTY, HalfRead() + [Keys([127]), Get(stale)])
  {
    HalfReadIs();
    var x := Final(CONSOLE, IDLE_TTY, HalfRead());
    Rubout(x.line, x.raw);
    var x1 := Apply(CONSOLE, x, Keys([127]));
    var es := [Keys([127]), Get(stale)];
    assert es[1..] == [Get(stale)] && x1.line.q == [] && x1.at == x.at;
    assert Possible(CONSOLE, x1, [Get(stale)]) && !Stocked(x1, Get(stale));
    JoinRuns(CONSOLE, IDLE_TTY, HalfRead(), es);
  }

  /** It comes when the reader has taken it: the erase is without effect, and the editor's line differs. */
  lemma EraseAfterReader()
    ensures var es := HalfRead() + [Get(seq(TTY_BUF_SIZE, _ => 0)), Keys([127])];
            Possible(CONSOLE, IDLE_TTY, es) && AllStocked(CONSOLE, IDLE_TTY, es) && !AllInTime(CONSOLE, IDLE_TTY, es)
  {
    HalfReadIs();
    var get := Get(seq(TTY_BUF_SIZE, _ => 0));
    var x := Final(CONSOLE, IDLE_TTY, HalfRead());
    var x1 := Apply(CONSOLE, x, get);
    var es := [get, Keys([127])];
    assert es[1..] == [Keys([127])] && x1.line.q == [] && x1.read == [120, NL, 121];
    Late(x1.line, x1.read);
    assert Possible(CONSOLE, x1, [Keys([127])]) && AllStocked(CONSOLE, x1, [Keys([127])]);
    assert !AllInTime(CONSOLE, x1, [Keys([127])]);
    JoinRuns(CONSOLE, IDLE_TTY, HalfRead(), es);
  }

  lemma Rubout(s: Line, raw: seq<int>)
    requires s.q == [121] && raw == []
    ensures CopyToCooked(CONSOLE, s, raw + [127]).0.q == []
  {
    CopyNext(CONSOLE, s, 127, []);
    assert raw + [127] == [127] + [];
  }

  lemma Late(s: Line, read: seq<int>)
    requires s.q == [] && read == [120, NL, 121]
    ensures !InTime(CONSOLE, s, read, [] + [127])
  {
    assert read + s.q == read && read[..2] == [120, NL];
    assert Killed(CONSOLE, read) == Killed(CONSOLE, [120, NL]);
    assert [] + [127] == [127];
    assert TooLate(CONSOLE, read, s.q, 127);
  }
}

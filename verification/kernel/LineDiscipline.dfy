/** The terminal line discipline (linux-0.11/kernel/chr_drv/tty_io.c,
    linux-0.11/include/linux/tty.h): typed characters become edited lines in a ring
    buffer, from which readers take them. */
module LineDiscipline {

  import opened Basics

  const TTY_BUF_SIZE := 1024
  const ROOM := TTY_BUF_SIZE - 1     // a full ring holds one character less
  const NL := 10
  const CR := 13

  /** The flags and control characters the code looks at. Characters are signed, control characters are not. */
  datatype Termios = Termios(crnl: bool, nocr: bool, nlcr: bool, uclc: bool, canon: bool, isig: bool,
                             kill: nat, erase: nat, eof: nat, stop: nat, start: nat, intr: nat, quit: nat)

  /** The secondary queue and what else typing changes; data counts the ends of lines in the queue. */
  datatype Line = Line(q: seq<int>, data: int, stopped: bool, intrs: nat, quits: nat)

  // ---- copy_to_cooked, on sequences ----

  function ToLower(c: int): int { if 65 <= c <= 90 then c + 32 else c }

  /** The character after the input flags; None: dropped. */
  function Cooked(tm: Termios, c: int): Option<int> {
    if c == CR && !tm.crnl && tm.nocr then None
    else
      var d := if c == CR then (if tm.crnl then NL else c) else if c == NL && tm.nlcr then CR else c;
      Some(if tm.uclc then ToLower(d) else d)
  }

  /** A newline or the end-of-file character ends a line. */
  predicate Ends(tm: Termios, c: int) { c == NL || c == tm.eof }

  /** The loop that deletes back to the end of the last line. */
  function Killed(tm: Termios, q: seq<int>): (r: seq<int>)
    ensures r <= q
  {
    if q == [] || Ends(tm, q[|q| - 1]) then q else Killed(tm, q[..|q| - 1])
  }

  function Erased(tm: Termios, q: seq<int>): seq<int> {
    if q == [] || Ends(tm, q[|q| - 1]) then q else q[..|q| - 1]
  }

  /** One character that has been cooked. */
  function Enter(tm: Termios, s: Line, c: int): Line {
    if tm.canon && c == tm.kill then s.(q := Killed(tm, s.q))
    else if tm.canon && c == tm.erase then s.(q := Erased(tm, s.q))
    else if tm.canon && c == tm.stop then s.(stopped := true)
    else if tm.canon && c == tm.start then s.(stopped := false)
    else if tm.isig && c == tm.intr then s.(intrs := s.intrs + 1)
    else if tm.isig && c == tm.quit then s.(quits := s.quits + 1)
    else s.(q := s.q + [c], data := s.data + if Ends(tm, c) then 1 else 0)
  }

  function Type(tm: Termios, s: Line, c: int): Line {
    match Cooked(tm, c) case None => s case Some(d) => Enter(tm, s, d)
  }

  /** copy_to_cooked: the line, and the input left over when the queue is full. */
  function CopyToCooked(tm: Termios, s: Line, input: seq<int>): (Line, seq<int>)
    decreases |input|
  {
    if input == [] || |s.q| >= ROOM then (s, input) else CopyToCooked(tm, Type(tm, s, input[0]), input[1..])
  }

  // ---- tty_read ----

  /** What the inner loop of tty_read delivers: the bytes, the line afterwards, and whether it met
      an end of file. */
  datatype Chunk = Chunk(bytes: seq<int>, rest: Line, eof: bool)

  function Take(tm: Termios, s: Line, nr: nat): (r: Chunk)
    decreases |s.q|
  {
    if nr == 0 || s.q == [] then Chunk([], s, false)
    else
      var c := s.q[0];
      var s1 := s.(q := s.q[1..], data := s.data - if Ends(tm, c) then 1 else 0);
      if c == tm.eof && tm.canon then Chunk([], s1, true)
      else
        var r := Take(tm, s1, nr - 1);
        r.(bytes := [c] + r.bytes)
  }

  /** When a reader has to wait. */
  predicate MustWait(tm: Termios, s: Line) {
    s.q == [] || (tm.canon && s.data == 0 && ROOM - |s.q| > 20)
  }

  // ---- The counter ----

  function Count(tm: Termios, q: seq<int>): nat {
    if q == [] then 0 else Count(tm, q[..|q| - 1]) + if Ends(tm, q[|q| - 1]) then 1 else 0
  }

  ghost predicate Inv(tm: Termios, s: Line) { s.data == Count(tm, s.q) && |s.q| <= ROOM }

  lemma {:induction false} CountAppend(tm: Termios, a: seq<int>, b: seq<int>)
    ensures Count(tm, a + b) == Count(tm, a) + Count(tm, b)
  {
    if b == [] {
      assert a + b == a;
    } else {
      assert (a + b)[..|a + b| - 1] == a + b[..|b| - 1];
      CountAppend(tm, a, b[..|b| - 1]);
    }
  }

  lemma {:induction false} CountZero(tm: Termios, q: seq<int>)
    ensures Count(tm, q) == 0 <==> forall i :: 0 <= i < |q| ==> !Ends(tm, q[i])
  {
    if q != [] { CountZero(tm, q[..|q| - 1]); }
  }

  /** What kill leaves: everything up to the last end of a line. */
  lemma {:induction false} KilledIs(tm: Termios, q: seq<int>)
    ensures var r := Killed(tm, q);
            && r <= q && Count(tm, r) == Count(tm, q)
            && (r == [] || Ends(tm, r[|r| - 1]))
            && forall i :: |r| <= i < |q| ==> !Ends(tm, q[i])
  {
    if q != [] && !Ends(tm, q[|q| - 1]) { KilledIs(tm, q[..|q| - 1]); }
  }

  lemma CountOne(tm: Termios, q: seq<int>, c: int)
    ensures Count(tm, q + [c]) == Count(tm, q) + if Ends(tm, c) then 1 else 0
    ensures Count(tm, [c] + q) == Count(tm, q) + if Ends(tm, c) then 1 else 0
  {
    assert (q + [c])[..|q|] == q;
    CountAppend(tm, [c], q);
    assert Count(tm, []) == 0;
    assert [c][..0] == [];
  }

  lemma CountErased(tm: Termios, q: seq<int>)
    ensures Count(tm, Erased(tm, q)) == Count(tm, q) && |Erased(tm, q)| <= |q|
  {
  }

  lemma TypeKeeps(tm: Termios, s: Line, c: int)
    requires Inv(tm, s) && |s.q| < ROOM
    ensures Inv(tm, Type(tm, s, c))
  {
    hide Count, Cooked, Killed, Erased, Ends;
    match Cooked(tm, c)
    case None =>
    case Some(d) =>
      KilledIs(tm, s.q);
      CountErased(tm, s.q);
      CountOne(tm, s.q, d);
  }

  /** Typing keeps the count of line ends right and never overfills the queue. */
  lemma {:induction false} CopyKeeps(tm: Termios, s: Line, input: seq<int>)
    requires Inv(tm, s)
    ensures var (s', left) := CopyToCooked(tm, s, input);
            Inv(tm, s') && (left == [] || |s'.q| == ROOM) && |left| <= |input| && left == input[|input| - |left|..]
    decreases |input|
  {
    if input != [] && |s.q| < ROOM {
      TypeKeeps(tm, s, input[0]);
      CopyKeeps(tm, Type(tm, s, input[0]), input[1..]);
    }
  }

  /** Reading takes characters from the front, and keeps the count right; an end of file in canonical
      mode is taken but not delivered, and nothing after it is. */
  lemma {:induction false} TakeIs(tm: Termios, s: Line, nr: nat)
    requires Inv(tm, s)
    ensures var r := Take(tm, s, nr);
            && Inv(tm, r.rest) && |r.bytes| <= nr
            && s.q == r.bytes + (if r.eof then [tm.eof as int] else []) + r.rest.q
            && (tm.canon ==> tm.eof as int !in r.bytes)
            && (r.eof ==> tm.canon)
            && (!r.eof ==> |r.bytes| == nr || r.rest.q == [])
            && r.rest.stopped == s.stopped && r.rest.intrs == s.intrs && r.rest.quits == s.quits
    decreases |s.q|
  {
    hide Count, Ends;
    if nr > 0 && s.q != [] {
      var c := s.q[0];
      CountOne(tm, s.q[1..], c);
      assert s.q == [c] + s.q[1..];
      if !(c == tm.eof && tm.canon) {
        var s1 := s.(q := s.q[1..], data := s.data - if Ends(tm, c) then 1 else 0);
        TakeIs(tm, s1, nr - 1);
        var r := Take(tm, s1, nr - 1);
        Prepend(c, r.bytes, if r.eof then [tm.eof as int] else [], r.rest.q);
      }
    }
  }

  lemma Prepend(c: int, a: seq<int>, b: seq<int>, d: seq<int>)
    ensures [c] + (a + b + d) == [c] + a + b + d
    ensures forall x :: x in [c] + a <==> x == c || x in a
  {
  }

  /** In canonical mode a reader waits exactly while no line has been finished, unless the queue is
      nearly full; otherwise exactly while there is nothing to read. */
  lemma WaitsForLine(tm: Termios, s: Line)
    requires Inv(tm, s)
    ensures MustWait(tm, s) <==>
              || s.q == []
              || (tm.canon && ROOM - |s.q| > 20 && forall i :: 0 <= i < |s.q| ==> s.q[i] != NL && s.q[i] != tm.eof)
  {
    CountZero(tm, s.q);
  }

  // ---- A line editor ----

  /** Finished lines, and the one being edited. */
  datatype Editor = Editor(done: seq<int>, line: seq<int>)

  ghost predicate IsEditor(tm: Termios, e: Editor) {
    && (e.done == [] || Ends(tm, e.done[|e.done| - 1]))
    && (forall i :: 0 <= i < |e.line| ==> !Ends(tm, e.line[i]))
  }

  /** What the keys mean in canonical mode. */
  function Edit(tm: Termios, e: Editor, c: int): Editor {
    if c == tm.kill then e.(line := [])
    else if c == tm.erase then (if e.line == [] then e else e.(line := e.line[..|e.line| - 1]))
    else if c == tm.stop || c == tm.start || (tm.isig && (c == tm.intr || c == tm.quit)) then e
    else if Ends(tm, c) then Editor(e.done + e.line + [c], [])
    else e.(line := e.line + [c])
  }

  function EditAll(tm: Termios, e: Editor, input: seq<int>): Editor
    decreases |input|
  {
    if input == [] then e
    else EditAll(tm, (match Cooked(tm, input[0]) case None => e case Some(c) => Edit(tm, e, c)), input[1..])
  }

  /** Each typed character does to the queue what it does in the editor: only the unfinished line changes. */
  lemma EnterIsEdit(tm: Termios, s: Line, e: Editor, c: int)
    requires tm.canon && IsEditor(tm, e) && s.q == e.done + e.line
    ensures IsEditor(tm, Edit(tm, e, c)) && Enter(tm, s, c).q == Edit(tm, e, c).done + Edit(tm, e, c).line
    ensures e.done <= Edit(tm, e, c).done
  {
    hide Killed;
    if c == tm.kill {
      KilledLine(tm, e);
    } else if c == tm.erase {
      if e.line != [] {
        assert s.q[|s.q| - 1] == e.line[|e.line| - 1];
        assert s.q[..|s.q| - 1] == e.done + e.line[..|e.line| - 1];
      } else {
        assert s.q == e.done;
      }
    }
  }

  lemma {:induction false} KilledLine(tm: Termios, e: Editor)
    requires IsEditor(tm, e)
    ensures Killed(tm, e.done + e.line) == e.done
    decreases |e.line|
  {
    var q := e.done + e.line;
    if e.line == [] {
      assert q == e.done;
    } else {
      assert q[|q| - 1] == e.line[|e.line| - 1];
      assert q[..|q| - 1] == e.done + e.line[..|e.line| - 1];
      KilledLine(tm, e.(line := e.line[..|e.line| - 1]));
    }
  }

  /** copy_to_cooked in canonical mode is the line editor, on the input it takes. */
  lemma {:induction false} CopyIsEdit(tm: Termios, s: Line, e: Editor, input: seq<int>)
    requires tm.canon && IsEditor(tm, e) && s.q == e.done + e.line
    ensures var (s', left) := CopyToCooked(tm, s, input);
            && |left| <= |input|
            && var e' := EditAll(tm, e, input[..|input| - |left|]);
               IsEditor(tm, e') && s'.q == e'.done + e'.line && e.done <= e'.done
    decreases |input|
  {
    hide Cooked, Enter, Edit, IsEditor;
    if input != [] && |s.q| < ROOM {
      var e1 := match Cooked(tm, input[0]) case None => e case Some(c) => Edit(tm, e, c);
      match Cooked(tm, input[0]) {
        case None =>
        case Some(c) => EnterIsEdit(tm, s, e, c);
      }
      CopyIsEdit(tm, Type(tm, s, input[0]), e1, input[1..]);
      var left := CopyToCooked(tm, s, input).1;
      var taken := input[..|input| - |left|];
      assert taken[0] == input[0] && taken[1..] == input[1..][..|input| - 1 - |left|];
    } else {
      assert input[..|input| - |input|] == [];
    }
  }

  /** Every queue is some editor's. */
  lemma QueueIsEditor(tm: Termios, q: seq<int>) returns (e: Editor)
    ensures IsEditor(tm, e) && q == e.done + e.line
  {
    KilledIs(tm, q);
    var r := Killed(tm, q);
    e := Editor(r, q[|r|..]);
  }

  // ---- What the input flags do ----

  function Replaced(input: seq<int>, c: int, d: int): (r: seq<int>)
    ensures |r| == |input| && forall i :: 0 <= i < |r| ==> r[i] == if input[i] == c then d else input[i]
  {
    seq(|input|, i requires 0 <= i < |input| => if input[i] == c then d else input[i])
  }

  /** The same line, and as much left over. */
  ghost predicate SameCopy(tm: Termios, s: Line, a: seq<int>, b: seq<int>) {
    var (x, y) := (CopyToCooked(tm, s, a), CopyToCooked(tm, s, b)); x.0 == y.0 && |x.1| == |y.1|
  }

  lemma {:induction false} SameKeys(tm: Termios, s: Line, a: seq<int>, b: seq<int>)
    requires |a| == |b| && forall i :: 0 <= i < |a| ==> Cooked(tm, a[i]) == Cooked(tm, b[i])
    ensures SameCopy(tm, s, a, b)
    decreases |a|
  {
    hide Cooked;
    if a != [] {
      assert Type(tm, s, a[0]) == Type(tm, s, b[0]);
      SameKeys(tm, Type(tm, s, a[0]), a[1..], b[1..]);
    }
  }

  /** ICRNL: a carriage return is a newline. */
  lemma ReturnIsNewline(tm: Termios, s: Line, input: seq<int>)
    requires tm.crnl && !tm.nlcr
    ensures SameCopy(tm, s, input, Replaced(input, CR, NL))
  {
    SameKeys(tm, s, input, Replaced(input, CR, NL));
  }

  function Swapped(input: seq<int>): (r: seq<int>)
    ensures |r| == |input|
    ensures forall i :: 0 <= i < |r| ==> r[i] == if input[i] == CR then NL else if input[i] == NL then CR else input[i]
  {
    seq(|input|, i requires 0 <= i < |input| =>
      if input[i] == CR then NL else if input[i] == NL then CR else input[i])
  }

  /** Both: they change places. */
  lemma {:induction false} BothSwap(tm: Termios, s: Line, input: seq<int>)
    requires tm.crnl && tm.nlcr
    ensures var plain := tm.(crnl := false, nocr := false, nlcr := false);
            var (x, y) := (CopyToCooked(tm, s, input), CopyToCooked(plain, s, Swapped(input)));
            x.0 == y.0 && |x.1| == |y.1|
    decreases |input|
  {
    if input != [] && |s.q| < ROOM {
      var plain := tm.(crnl := false, nocr := false, nlcr := false);
      hide Killed, Erased;
      SamePlain(tm, plain, s.q);
      assert Type(tm, s, input[0]) == Type(plain, s, Swapped(input)[0]);
      BothSwap(tm, Type(tm, s, input[0]), input[1..]);
      assert Swapped(input)[1..] == Swapped(input[1..]);
    }
  }

  lemma {:induction false} SamePlain(tm: Termios, plain: Termios, q: seq<int>)
    requires plain.eof == tm.eof
    ensures Killed(plain, q) == Killed(tm, q) && Erased(plain, q) == Erased(tm, q)
  {
    if q != [] { SamePlain(tm, plain, q[..|q| - 1]); }
  }

  function WithoutReturns(input: seq<int>): seq<int> {
    if input == [] then [] else (if input[0] == CR then [] else [input[0]]) + WithoutReturns(input[1..])
  }

  /** IGNCR: carriage returns make no difference. */
  lemma {:induction false} ReturnsIgnored(tm: Termios, s: Line, input: seq<int>)
    requires tm.nocr && !tm.crnl
    ensures CopyToCooked(tm, s, input).0 == CopyToCooked(tm, s, WithoutReturns(input)).0
    decreases |input|
  {
    hide Enter;
    if input != [] && |s.q| < ROOM {
      var rest := WithoutReturns(input[1..]);
      ReturnsIgnored(tm, Type(tm, s, input[0]), input[1..]);
      if input[0] == CR {
        assert WithoutReturns(input) == [] + rest && [] + rest == rest;
      } else {
        assert ([input[0]] + rest)[1..] == rest;
      }
    }
  }

  lemma TypeAsPlain(tm: Termios, s: Line, c: int)
    requires tm.nlcr && !tm.crnl
    ensures Type(tm, s, c) == if tm.nocr && c == CR then s
              else Type(tm.(nlcr := false, nocr := false), s, if c == NL then CR else c)
  {
    hide Killed, Erased;
    SamePlain(tm, tm.(nlcr := false, nocr := false), s.q);
  }

  lemma CopyFirst(tm: Termios, s: Line, c: int, rest: seq<int>)
    ensures CopyToCooked(tm, s, [c] + rest) ==
            if |s.q| >= ROOM then (s, [c] + rest) else CopyToCooked(tm, Type(tm, s, c), rest)
  {
    assert ([c] + rest)[1..] == rest;
  }

  /** What the CRs and NLs become: with INLCR and IGNCR each NL is a CR, and CRs are gone. */
  function AsReturns(tm: Termios, input: seq<int>): seq<int> {
    Replaced(if tm.nocr then WithoutReturns(input) else input, NL, CR)
  }

  lemma AsReturnsFirst(tm: Termios, input: seq<int>)
    requires input != []
    ensures AsReturns(tm, input) == (if tm.nocr && input[0] == CR then []
              else [if input[0] == NL then CR else input[0]]) + AsReturns(tm, input[1..])
  {
    var (kept, rest) := if tm.nocr then (WithoutReturns(input), WithoutReturns(input[1..])) else (input, input[1..]);
    if tm.nocr && input[0] == CR { assert kept == rest; } else { assert kept == [input[0]] + rest; }
  }

  /** INLCR: a newline is a carriage return, one that IGNCR does not drop. */
  lemma {:induction false} NewlineIsReturn(tm: Termios, s: Line, input: seq<int>)
    requires tm.nlcr && !tm.crnl
    ensures CopyToCooked(tm, s, input).0 ==
              CopyToCooked(tm.(nlcr := false, nocr := false), s, AsReturns(tm, input)).0
    decreases |input|
  {
    hide Type, AsReturns;
    if input != [] && |s.q| < ROOM {
      var (c, rest) := (input[0], AsReturns(tm, input[1..]));
      TypeAsPlain(tm, s, c);
      AsReturnsFirst(tm, input);
      NewlineIsReturn(tm, Type(tm, s, c), input[1..]);
      if tm.nocr && c == CR {
        assert [] + rest == rest;
      } else {
        CopyFirst(tm.(nlcr := false, nocr := false), s, if c == NL then CR else c, rest);
      }
    } else if input == [] {
      assert AsReturns(tm, []) == [] by { NothingReturned(tm); }
    }
  }

  lemma NothingReturned(tm: Termios)
    ensures AsReturns(tm, []) == []
  {
  }

  /** IUCLC: an upper-case letter is the lower-case one. */
  lemma CaseIgnored(tm: Termios, s: Line, input: seq<int>)
    requires tm.uclc
    ensures SameCopy(tm, s, input, seq(|input|, i requires 0 <= i < |input| =>
              if 'A' as int <= input[i] <= 'Z' as int then input[i] + ('a' as int - 'A' as int) else input[i]))
  {
    var lower := seq(|input|, i requires 0 <= i < |input| =>
      if 'A' as int <= input[i] <= 'Z' as int then input[i] + ('a' as int - 'A' as int) else input[i]);
    forall i | 0 <= i < |input| ensures Cooked(tm, input[i]) == Cooked(tm, lower[i]) {}
    SameKeys(tm, s, input, lower);
  }

  /** Without flags, and neither editing nor signals, the input goes into the queue as it is, as far as there is
      room. */
  lemma {:induction false} RawIsCopied(tm: Termios, s: Line, input: seq<int>)
    requires !tm.crnl && !tm.nocr && !tm.nlcr && !tm.uclc && !tm.canon && !tm.isig && |s.q| <= ROOM
    ensures var (s', left) := CopyToCooked(tm, s, input);
            && |left| == (if |input| <= ROOM - |s.q| then 0 else |input| - (ROOM - |s.q|))
            && s'.q == s.q + input[..|input| - |left|]
            && s'.stopped == s.stopped && s'.intrs == s.intrs && s'.quits == s.quits
    decreases |input|
  {
    if input != [] && |s.q| < ROOM {
      RawIsCopied(tm, Type(tm, s, input[0]), input[1..]);
      var n := |input| - |CopyToCooked(tm, s, input).1|;
      assert s.q + [input[0]] + input[1..][..n - 1] == s.q + input[..n];
    } else {
      assert s.q + input[..0] == s.q;
    }
  }

  /** A key that is none of the special ones, and that no flag touches, is queued whatever the mode. */
  lemma PlainKey(tm: Termios, s: Line, c: int)
    requires |s.q| < ROOM && c != CR && c != NL && !('A' as int <= c <= 'Z' as int)
    requires c != tm.kill && c != tm.erase && c != tm.stop && c != tm.start && c != tm.intr && c != tm.quit
    ensures CopyToCooked(tm, s, [c]) == (s.(q := s.q + [c], data := s.data + if c == tm.eof then 1 else 0), [])
  {
    assert [c][1..] == [];
  }

  /** Enter, at a terminal with ICRNL, ends the wait of a canonical reader. */
  lemma EnterEndsWait(tm: Termios, s: Line)
    requires Inv(tm, s) && |s.q| < ROOM && tm.crnl && tm.canon
    requires NL !in {tm.kill, tm.erase, tm.stop, tm.start, tm.intr, tm.quit}
    ensures var s' := CopyToCooked(tm, s, [CR]).0;
            !MustWait(tm, s') && s'.q == s.q + [NL] && s'.data == s.data + 1 && s'.data == Count(tm, s'.q)
  {
    assert [CR][1..] == [];
    CopyKeeps(tm, s, [CR]);
  }

  /** The keys that stop and start output, and those that send signals. */
  lemma ControlKeys(tm: Termios, s: Line, c: int)
    requires |s.q| < ROOM && c != CR && c != NL && !('A' as int <= c <= 'Z' as int)
    requires c != tm.kill && c != tm.erase && (tm.stop == c ==> tm.start != c)
    requires if tm.canon && (c == tm.stop || c == tm.start) then true else tm.isig && (c == tm.intr || c == tm.quit)
    ensures var s' := CopyToCooked(tm, s, [c]).0;
            && s'.q == s.q && s'.data == s.data
            && (tm.canon && c == tm.stop ==> s' == s.(stopped := true))
            && (tm.canon && c == tm.start ==> s' == s.(stopped := false))
            && (!(tm.canon && (c == tm.stop || c == tm.start)) ==>
                  s' == if c == tm.intr then s.(intrs := s.intrs + 1) else s.(quits := s.quits + 1))
  {
    assert [c][1..] == [];
  }
}

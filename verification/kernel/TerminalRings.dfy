/** The ring buffers of a terminal, and copy_to_cooked and tty_read over them
    (linux-0.11/include/linux/tty.h, linux-0.11/kernel/chr_drv/tty_io.c). */
module TerminalRings {
  import opened Basics
  import opened LineDiscipline

  /** struct tty_queue; head and tail wrap with a mask. */
  class TtyQueue {
    var data: int
    var head: nat
    var tail: nat
    const buf: array<int>

    ghost predicate Valid()
      reads this
    {
      buf.Length == TTY_BUF_SIZE && head < TTY_BUF_SIZE && tail < TTY_BUF_SIZE
    }

    /** CHARS */
    function Chars(): (n: nat)
      requires Valid()
      reads this
      ensures n <= ROOM
    {
      (head - tail) % TTY_BUF_SIZE
    }

    /** The unread characters, the oldest first. */
    ghost function Contents(): (q: seq<int>)
      requires Valid()
      reads this, buf
      ensures |q| == Chars()
    {
      RingSlice(buf[..], tail, Chars())
    }

    constructor ()
      ensures Valid() && Contents() == [] && data == 0 && fresh(buf)
    {
      buf := new int[TTY_BUF_SIZE](_ => 0);
      head, tail, data := 0, 0, 0;
    }

    /** EMPTY */
    predicate Empty()
      requires Valid()
      reads this
      ensures Empty() <==> Chars() == 0
    {
      head == tail
    }

    /** LEFT: how many more characters fit. */
    function Left(): (n: nat)
      requires Valid()
      reads this
      ensures n == ROOM - Chars()
    {
      (tail - head - 1) % TTY_BUF_SIZE
    }

    /** LAST */
    method Last() returns (c: int)
      requires Valid() && !Empty()
      ensures c == Contents()[Chars() - 1]
    {
      c := buf[(head - 1) % TTY_BUF_SIZE];
    }

    /** DEC(head): the newest character goes. */
    method DropLast()
      requires Valid() && !Empty()
      modifies `head
      ensures Valid() && Contents() == old(Contents())[..old(Chars()) - 1]
    {
      hide RingSlice;
      RingPrefix(buf[..], tail, Chars());
      head := (head - 1) % TTY_BUF_SIZE;
    }

    /** GETCH takes the oldest character. If there is none, the tail passes the head and the queue is full, of
        characters that have been read or erased before. */
    method GetCh() returns (c: int)
      requires Valid()
      modifies `tail
      ensures Valid() && if old(Empty()) then Chars() == ROOM else old(Contents()) == [c] + Contents()
    {
      hide RingSlice;
      if head != tail { FirstOfRing(buf[..], tail, Chars()); }
      c := buf[tail];
      tail := (tail + 1) % TTY_BUF_SIZE;
    }

    /** PUTCH: unread characters are left alone as long as the queue is not full. */
    method PutCh(c: int)
      requires Valid() && Left() > 0
      modifies `head, buf
      ensures Valid() && Contents() == old(Contents()) + [c]
    {
      hide RingSlice;
      ghost var (n, before, h) := (Chars(), buf[..], head);
      buf[head] := c;
      head := (head + 1) % TTY_BUF_SIZE;
      assert buf[..] == before[h := c];
      LastOfRing(before, h, tail, c);
    }
  }

  lemma RingAt(buf: seq<int>, tail: nat, n: nat, i: nat)
    requires |buf| == TTY_BUF_SIZE && i < n
    ensures RingSlice(buf, tail, n)[i] == buf[(tail + i) % TTY_BUF_SIZE]
  {
  }

  lemma FirstOfRing(buf: seq<int>, tail: nat, n: nat)
    requires |buf| == TTY_BUF_SIZE && tail < TTY_BUF_SIZE && n > 0
    ensures RingSlice(buf, tail, n) == [buf[tail]] + RingSlice(buf, (tail + 1) % TTY_BUF_SIZE, n - 1)
  {
    hide RingSlice;
    var (q, r) := (RingSlice(buf, tail, n), [buf[tail]] + RingSlice(buf, (tail + 1) % TTY_BUF_SIZE, n - 1));
    forall i | 0 <= i < n ensures q[i] == r[i] {
      RingAt(buf, tail, n, i);
      if i > 0 { RingAt(buf, (tail + 1) % TTY_BUF_SIZE, n - 1, i - 1); }
    }
  }

  lemma LastOfRing(buf: seq<int>, head: nat, tail: nat, c: int)
    requires |buf| == TTY_BUF_SIZE && head < TTY_BUF_SIZE && tail < TTY_BUF_SIZE && (tail - head - 1) % TTY_BUF_SIZE > 0
    ensures var n := (head - tail) % TTY_BUF_SIZE;
            && ((head + 1) % TTY_BUF_SIZE - tail) % TTY_BUF_SIZE == n + 1
            && RingSlice(buf[head := c], tail, n + 1) == RingSlice(buf, tail, n) + [c]
  {
    hide RingSlice;
    HeadMoves(head, tail);
    var n := (head - tail) % TTY_BUF_SIZE;
    var (q, r) := (RingSlice(buf[head := c], tail, n + 1), RingSlice(buf, tail, n) + [c]);
    forall i | 0 <= i <= n ensures q[i] == r[i] {
      RingAt(buf[head := c], tail, n + 1, i);
      PlaceInRing(head, tail, i);
      if i < n { RingAt(buf, tail, n, i); }
    }
  }

  lemma HeadMoves(head: nat, tail: nat)
    requires head < TTY_BUF_SIZE && tail < TTY_BUF_SIZE && (tail - head - 1) % TTY_BUF_SIZE > 0
    ensures ((head + 1) % TTY_BUF_SIZE - tail) % TTY_BUF_SIZE == (head - tail) % TTY_BUF_SIZE + 1
  {
  }

  /** The new character's place is not among those of the unread ones. */
  lemma PlaceInRing(head: nat, tail: nat, i: nat)
    requires head < TTY_BUF_SIZE && tail < TTY_BUF_SIZE && i <= (head - tail) % TTY_BUF_SIZE
    ensures 0 <= (tail + i) % TTY_BUF_SIZE < TTY_BUF_SIZE
    ensures (tail + i) % TTY_BUF_SIZE == head <==> i == (head - tail) % TTY_BUF_SIZE
  {
  }

  lemma RingPrefix(buf: seq<int>, tail: nat, n: nat)
    requires |buf| == TTY_BUF_SIZE && n > 0
    ensures RingSlice(buf, tail, n)[..n - 1] == RingSlice(buf, tail, n - 1)
  {
    hide RingSlice;
    var (q, r) := (RingSlice(buf, tail, n)[..n - 1], RingSlice(buf, tail, n - 1));
    forall i | 0 <= i < n - 1 ensures q[i] == r[i] {
      RingAt(buf, tail, n, i);
      RingAt(buf, tail, n - 1, i);
    }
  }

  class Tty {
    const tm: Termios
    const readQ: TtyQueue
    const secondary: TtyQueue
    var stopped: bool
    var intrs: nat
    var quits: nat

    constructor (tm: Termios)
      ensures Valid() && this.tm == tm && Abs() == Line([], 0, false, 0, 0) && readQ.Contents() == []
    {
      this.tm := tm;
      stopped, intrs, quits := false, 0, 0;
      readQ := new TtyQueue();
      secondary := new TtyQueue();
    }

    ghost predicate Valid()
      reads this, readQ, secondary
    {
      readQ != secondary && readQ.buf != secondary.buf && readQ.Valid() && secondary.Valid()
    }

    ghost function Abs(): Line
      requires Valid()
      reads this, readQ, secondary, secondary.buf
    {
      Line(secondary.Contents(), secondary.data, stopped, intrs, quits)
    }

    /** The loop for the kill character. */
    method KillLine()
      requires Valid()
      modifies secondary`head
      ensures Valid() && secondary.Contents() == Killed(tm, old(secondary.Contents()))
    {
      while !secondary.Empty()
        invariant Valid() && Killed(tm, secondary.Contents()) == Killed(tm, old(secondary.Contents()))
        decreases secondary.Chars()
      {
        var c := secondary.Last();
        if c == NL || c == tm.eof { break; }
        secondary.DropLast();
      }
    }

    /** The input flags; false: the character is dropped. */
    method Cook(raw: int) returns (c: int, keep: bool)
      ensures Cooked(tm, raw) == if keep then Some(c) else None
    {
      c, keep := raw, true;
      if c == CR {
        if tm.crnl {
          c := NL;
        } else if tm.nocr {
          keep := false;
        }
      } else if c == NL && tm.nlcr {
        c := CR;
      }
      if tm.uclc { c := ToLower(c); }
    }

    /** The erase character. */
    method EraseChar()
      requires Valid()
      modifies secondary`head
      ensures Valid() && secondary.Contents() == Erased(tm, old(secondary.Contents()))
    {
      if secondary.Empty() { return; }
      var last := secondary.Last();
      if last == NL || last == tm.eof { return; }
      secondary.DropLast();
    }

    /** One character of copy_to_cooked, without the echo. */
    method TypeChar(raw: int)
      requires Valid() && secondary.Left() > 0
      modifies this, secondary, secondary.buf
      ensures Valid() && Abs() == Type(tm, old(Abs()), raw)
    {
      hide RingSlice, Killed, Erased, Cooked;
      var c, keep := Cook(raw);
      if !keep { return; }
      if tm.canon {
        if c == tm.kill {
          KillLine();
          return;
        }
        if c == tm.erase {
          EraseChar();
          return;
        }
        if c == tm.stop {
          stopped := true;
          return;
        }
        if c == tm.start {
          stopped := false;
          return;
        }
      }
      if tm.isig {
        if c == tm.intr {
          intrs := intrs + 1;
          return;
        }
        if c == tm.quit {
          quits := quits + 1;
          return;
        }
      }
      if c == NL || c == tm.eof { secondary.data := secondary.data + 1; }
      secondary.PutCh(c);
    }

    /** copy_to_cooked */
    method CopyToCooked()
      requires Valid()
      modifies this, readQ, secondary, secondary.buf
      ensures Valid() && (Abs(), readQ.Contents()) == LineDiscipline.CopyToCooked(tm, old(Abs()), old(readQ.Contents()))
    {
      while !readQ.Empty() && secondary.Left() > 0
        invariant Valid()
        invariant LineDiscipline.CopyToCooked(tm, Abs(), readQ.Contents()) ==
                    LineDiscipline.CopyToCooked(tm, old(Abs()), old(readQ.Contents()))
        decreases readQ.Chars()
      {
        var c := readQ.GetCh();
        TypeChar(c);
      }
    }

    /** One turn of tty_read's outer loop, once there is something to read and as long as nothing is typed. */
    method ReadChunk(nr: nat) returns (bytes: seq<int>, eof: bool)
      requires Valid() && nr > 0
      modifies secondary
      ensures Valid() && Chunk(bytes, Abs(), eof) == Take(tm, old(Abs()), nr)
    {
      hide RingSlice, Take;
      bytes, eof := [], false;
      var n := nr;
      while n > 0 && !secondary.Empty()
        invariant Valid() && !eof && n <= nr
        invariant Take(tm, old(Abs()), nr) == After(bytes, Take(tm, Abs(), n))
        decreases n
      {
        ghost var s := Abs();
        var c := secondary.GetCh();
        if c == tm.eof || c == NL { secondary.data := secondary.data - 1; }
        if c == tm.eof && tm.canon {
          eof := true;
          TakeEnd(tm, s, n, Abs());
          assert bytes + [] == bytes;
          return;
        }
        TakeOne(tm, s, n, Abs());
        AfterAfter(bytes, c, Take(tm, Abs(), n - 1));
        bytes := bytes + [c];
        n := n - 1;
      }
      TakeNone(tm, Abs(), n);
      assert bytes + [] == bytes;
    }
  }

  ghost function After(bytes: seq<int>, r: Chunk): Chunk { r.(bytes := bytes + r.bytes) }

  lemma AfterAfter(bytes: seq<int>, c: int, r: Chunk)
    ensures After(bytes, After([c], r)) == After(bytes + [c], r)
  {
    assert bytes + ([c] + r.bytes) == bytes + [c] + r.bytes;
  }

  lemma TakeNone(tm: Termios, s: Line, n: nat)
    requires n == 0 || s.q == []
    ensures Take(tm, s, n) == Chunk([], s, false)
  {
  }

  lemma TakeEnd(tm: Termios, s: Line, n: nat, s': Line)
    requires n > 0 && s.q != [] && s' == s.(q := s.q[1..], data := s.data - if Ends(tm, s.q[0]) then 1 else 0) &&
               s.q[0] == tm.eof && tm.canon
    ensures Take(tm, s, n) == Chunk([], s', true)
  {
  }

  lemma TakeOne(tm: Termios, s: Line, n: nat, s': Line)
    requires n > 0 && s.q != [] && s' == s.(q := s.q[1..], data := s.data - if Ends(tm, s.q[0]) then 1 else 0) &&
               !(s.q[0] == tm.eof && tm.canon)
    ensures Take(tm, s, n) == After([s.q[0]], Take(tm, s', n - 1))
  {
  }
}

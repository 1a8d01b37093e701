/** The 32-bit layout behind type Word: every 32-bit number is exactly one
    Word, and the masks of linux-0.11/mm/memory.c are the field updates that
    module PageTables makes. */
module EntryFormat {
  import opened PageTables

  const WORD_SIZE := 0x1_0000_0000

  function Bit(b: bool): nat { if b then 1 else 0 }

  ghost predicate InRange(w: Word) { w.frame < 0x10_0000 && w.hi < 32 && w.mid < 8 }

  function Encode(w: Word): nat {
    w.frame * 4096 + w.hi * 128 + Bit(w.dirty) * 64 + w.mid * 8 + Bit(w.user) * 4 + Bit(w.rw) * 2 + Bit(w.present)
  }

  /** Shift the fields out one after the other. */
  function Decode(n: nat): Word {
    var n1 := n / 2;
    var n2 := n1 / 2;
    var n3 := n2 / 2;
    var n6 := n3 / 8;
    var n7 := n6 / 2;
    Word(n7 / 32, n7 % 32, n6 % 2 == 1, n3 % 8, n2 % 2 == 1, n1 % 2 == 1, n % 2 == 1)
  }

  lemma EveryNumberIsAWord(n: nat)
    requires n < WORD_SIZE
    ensures InRange(Decode(n)) && Encode(Decode(n)) == n
  {
  }

  lemma EveryWordIsANumber(w: Word)
    requires InRange(w)
    ensures Encode(w) < WORD_SIZE && Decode(Encode(w)) == w
  {
    var n7 := w.frame * 32 + w.hi;
    var n6 := n7 * 2 + Bit(w.dirty);
    var n3 := n6 * 8 + w.mid;
    var n2 := n3 * 2 + Bit(w.user);
    var n1 := n2 * 2 + Bit(w.rw);
    assert Encode(w) == n1 * 2 + Bit(w.present);
    assert Encode(w) / 2 == n1 && n1 / 2 == n2 && n2 / 2 == n3 && n3 / 8 == n6 && n6 / 2 == n7;
  }

  /** w & ~2 */
  lemma ClearWriteBit(w: Word)
    requires InRange(w)
    ensures Encode(w.(rw := false)) == Encode(w) - 2 * (Encode(w) / 2 % 2)
  {
    BitOne(w.frame * 1024 + w.hi * 32 + Bit(w.dirty) * 16 + w.mid * 2 + Bit(w.user), Bit(w.rw), Bit(w.present));
  }

  lemma BitOne(high: nat, bit: nat, low: nat)
    requires bit < 2 && low < 2
    ensures (high * 4 + bit * 2 + low) / 2 % 2 == bit
  {
    assert (high * 4 + bit * 2 + low) / 2 == high * 2 + bit;
  }

  /** 0xfffff000 & w, page | 7, and this_page > LOW_MEM for a present entry. */
  lemma FrameMask(w: Word, f: nat)
    requires InRange(w) && f < 0x10_0000
    ensures Encode(w) - Encode(w) % 4096 == w.frame * 4096
    ensures Encode(Fresh(f)) == f * 4096 + 7
    ensures w.present ==> (Encode(w) > LOW * 4096 <==> w.frame >= LOW)
  {
    var low := w.hi * 128 + Bit(w.dirty) * 64 + w.mid * 8 + Bit(w.user) * 4 + Bit(w.rw) * 2 + Bit(w.present);
    assert low < 4096 && Encode(w) == w.frame * 4096 + low;
  }

  /** (w & 0x41) == 0x01 holds exactly for a present, clean page. */
  lemma CleanMask(w: Word)
    requires InRange(w)
    ensures (Encode(w) / 64 % 2 == 0 && Encode(w) % 2 == 1) <==> (w.present && !w.dirty)
  {
    BitSix(w.frame * 32 + w.hi, Bit(w.dirty), w.mid * 8 + Bit(w.user) * 4 + Bit(w.rw) * 2 + Bit(w.present));
    BitZero((w.frame * 64 + w.hi * 2 + Bit(w.dirty)) * 32 + w.mid * 4 + Bit(w.user) * 2 + Bit(w.rw), Bit(w.present));
  }

  lemma BitSix(high: nat, bit: nat, low: nat)
    requires bit < 2 && low < 64
    ensures (high * 128 + bit * 64 + low) / 64 % 2 == bit
  {
    assert (high * 128 + bit * 64 + low) / 64 == high * 2 + bit;
  }

  lemma BitZero(high: nat, bit: nat)
    requires bit < 2
    ensures (high * 2 + bit) % 2 == bit
  {
  }
}

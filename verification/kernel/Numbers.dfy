/** Printing and reading numbers in the kernel's printf (linux-0.11/kernel/vsprintf.c). */
module Numbers {

  import opened Basics

  const INT_LIMIT := 0x8000_0000       // ints are from -INT_LIMIT to INT_LIMIT - 1
  const WORD_LIMIT := 0x1_0000_0000
  const TMP_SIZE := 36

  /** The bits of `type`. */
  datatype Flags = Flags(zeropad: bool, sign: bool, plus: bool, space: bool, left: bool, special: bool, small: bool)

  predicate IsDigit(c: char) { '0' <= c <= '9' }

  /** The d-th character of the table of digits. */
  function DigitChar(d: nat, small: bool): (c: char)
    requires d < 36
    ensures DigitValue(c) == d && (IsDigit(c) <==> d < 10)
    ensures d >= 10 ==> if small then 'a' <= c <= 'z' else 'A' <= c <= 'Z'
  {
    if d < 10 then ('0' as nat + d) as char else ((if small then 'a' else 'A') as nat + d - 10) as char
  }

  function DigitValue(c: char): nat {
    if '0' <= c <= '9' then c as nat - '0' as nat
    else if 'A' <= c <= 'Z' then c as nat - 'A' as nat + 10
    else if 'a' <= c <= 'z' then c as nat - 'a' as nat + 10
    else 0
  }

  /** What a string of digits denotes. */
  function Value(s: string, base: nat): nat {
    if s == "" then 0 else Value(s[..|s| - 1], base) * base + DigitValue(s[|s| - 1])
  }

  /** The digits of a number, without leading zeros. */
  function Digits(v: nat, base: nat, small: bool): (s: string)
    requires 2 <= base <= 36
    ensures |s| >= 1
    decreases v
  {
    if v < base then [DigitChar(v, small)]
    else
      Smaller(v, base);
      Digits(v / base, base, small) + [DigitChar(v % base, small)]
  }

  lemma Smaller(v: nat, base: nat)
    requires base >= 2 && v > 0
    ensures v / base < v && 0 <= v % base < base && v == v / base * base + v % base && 2 * (v / base) <= v
  {
    assert v == v / base * base + v % base;
    assert v / base * base >= v / base * 2 by { assert v / base >= 0; assert v / base * (base - 2) >= 0; }
  }

  lemma {:induction false} DigitsDenote(v: nat, base: nat, small: bool)
    requires 2 <= base <= 36
    ensures Value(Digits(v, base, small), base) == v
    decreases v
  {
    if v < base {
      assert Digits(v, base, small)[..0] == "";
    } else {
      Smaller(v, base);
      DigitsDenote(v / base, base, small);
      var s := Digits(v / base, base, small);
      assert (s + [DigitChar(v % base, small)])[..|s|] == s;
    }
  }

  function Pow2(k: nat): nat { if k == 0 then 1 else 2 * Pow2(k - 1) }

  /** A number below 2^k has at most k digits in any base. */
  lemma {:induction false} DigitsFit(v: nat, base: nat, small: bool, k: nat)
    requires 2 <= base <= 36 && k >= 1 && v < Pow2(k)
    ensures |Digits(v, base, small)| <= k
    decreases v
  {
    if v >= base {
      Smaller(v, base);
      assert k > 1;
      DigitsFit(v / base, base, small, k - 1);
    }
  }

  lemma WordPow()
    ensures Pow2(32) == WORD_LIMIT
  {
    assert Pow2(8) == 256;
    assert Pow2(16) == 0x1_0000 by { assert Pow2(12) == 4096; }
    assert Pow2(24) == 0x100_0000 by { assert Pow2(20) == 0x10_0000; }
    assert Pow2(28) == 0x1000_0000;
  }

  function Repeat(c: char, n: int): (s: string)
    ensures |s| == if n > 0 then n else 0
  {
    if n <= 0 then "" else seq(n, _ => c)
  }

  lemma {:induction false} LeadingZeros(n: nat, s: string, base: nat)
    ensures Value(Repeat('0', n) + s, base) == Value(s, base)
  {
    if s == "" {
      assert Repeat('0', n) + s == Repeat('0', n);
      if n > 0 {
        assert Repeat('0', n)[..n - 1] == Repeat('0', n - 1);
        LeadingZeros(n - 1, "", base);
        assert Repeat('0', n - 1) + "" == Repeat('0', n - 1);
      }
    } else {
      assert (Repeat('0', n) + s)[..n + |s| - 1] == Repeat('0', n) + s[..|s| - 1];
      LeadingZeros(n, s[..|s| - 1], base);
    }
  }

  // ---- number ----

  /** The magnitude that is printed: signed conversions print the absolute value, others the 32-bit word. */
  function Magnitude(num: int, sign: bool): (v: nat)
    requires -INT_LIMIT <= num < INT_LIMIT
    ensures v < WORD_LIMIT
  {
    if num >= 0 then num else if sign then -num else num + WORD_LIMIT
  }

  function SignOf(num: int, f: Flags): string {
    if f.sign && num < 0 then "-" else if f.plus then "+" else if f.space then " " else ""
  }

  function Prefix(base: nat, f: Flags): string {
    if !f.special then "" else if base == 8 then "0" else if base == 16 then (if f.small then "0x" else "0X") else ""
  }

  function Max(a: int, b: int): int { if a > b then a else b }

  /** The parts of the output, in order: blanks, sign and prefix, zeros for the field and for the
      precision, digits, blanks. */
  datatype Parts = Parts(before: nat, front: string, zeros: nat, digits: string, after: nat)

  function Layout(num: int, base: nat, size: int, precision: int, f: Flags): Parts
    requires -INT_LIMIT <= num < INT_LIMIT && 2 <= base <= 36
  {
    var digits := Digits(Magnitude(num, f.sign), base, f.small);
    var front := SignOf(num, f) + Prefix(base, f);
    var width := Max(precision, |digits|);
    var pad := Max(size - |front| - width, 0);
    Parts(if f.zeropad || f.left then 0 else pad, front,
          (if f.zeropad && !f.left then pad else 0) + width - |digits|, digits, if f.left then pad else 0)
  }

  function Output(p: Parts): string {
    Repeat(' ', p.before) + p.front + Repeat('0', p.zeros) + p.digits + Repeat(' ', p.after)
  }

  /** The length is the field width, or what the number needs if that is more. */
  lemma OutputLength(num: int, base: nat, size: int, precision: int, f: Flags)
    requires -INT_LIMIT <= num < INT_LIMIT && 2 <= base <= 36
    ensures var n := |Digits(Magnitude(num, f.sign), base, f.small)|;
            |Output(Layout(num, base, size, precision, f))| ==
                Max(size, |SignOf(num, f)| + |Prefix(base, f)| + Max(precision, n))
  {
  }

  /** Between the blanks and the front on one side, and the blanks on the other, are digits that denote
      exactly the magnitude, the most negative int's too, and at least as many as the precision asks. */
  lemma OutputDenotes(num: int, base: nat, size: int, precision: int, f: Flags)
    requires -INT_LIMIT <= num < INT_LIMIT && 2 <= base <= 36
    ensures var p := Layout(num, base, size, precision, f);
            var (out, k, to) := (Output(p), p.before + |p.front|, p.before + |p.front| + p.zeros + |p.digits|);
            && k <= to <= |out| && to - k >= Max(precision, 1)
            && Value(out[k..to], base) == Magnitude(num, f.sign)
            && out[..p.before] == Repeat(' ', p.before) && out[p.before..k] == SignOf(num, f) + Prefix(base, f)
            && out[to..] == Repeat(' ', p.after)
  {
    hide Repeat, SignOf, Prefix, Magnitude, Digits, Value;
    var p := Layout(num, base, size, precision, f);
    DigitsDenote(Magnitude(num, f.sign), base, f.small);
    LeadingZeros(p.zeros, p.digits, base);
    Slices(Repeat(' ', p.before), p.front, Repeat('0', p.zeros), p.digits, Repeat(' ', p.after));
    RepeatLength(p);
  }

  lemma RepeatLength(p: Parts)
    ensures |Repeat(' ', p.before)| == p.before && |Repeat('0', p.zeros)| == p.zeros
    ensures |Repeat(' ', p.after)| == p.after
  {
  }

  lemma Slices(a: string, b: string, c: string, d: string, e: string)
    ensures var out := a + b + c + d + e;
            && out[|a| + |b|..|a| + |b| + |c| + |d|] == c + d && out[|a|..|a| + |b|] == b && out[..|a|] == a
            && out[|a| + |b| + |c| + |d|..] == e
  {
  }

  /** do_div: an unsigned division; the digit, and the quotient left. */
  method DoDiv(n: nat, base: nat) returns (digit: nat, q: nat)
    requires 2 <= base <= 36 && n > 0
    ensures digit == n % base && q == n / base && digit < base && q < n
  {
    Smaller(n, base);
    digit, q := n % base, n / base;
  }

  /** The digits into tmp, the last one first. */
  method FillTmp(tmp: array<char>, num: nat, base: nat, small: bool) returns (i: nat)
    requires tmp.Length == TMP_SIZE && 2 <= base <= 36 && num < WORD_LIMIT
    modifies tmp
    ensures i == |Digits(num, base, small)| <= 32
    ensures forall k :: 0 <= k < i ==> tmp[k] == Digits(num, base, small)[i - 1 - k]
  {
    hide DigitChar, Pow2, DigitValue;
    WordPow();
    DigitsFit(num, base, small, 32);
    ghost var all := Digits(num, base, small);
    i := 0;
    if num == 0 {
      tmp[0] := '0';
      ZeroDigit(base, small);
      return 1;
    }
    var n: nat := num;
    while n != 0
      invariant i <= |all| && n < WORD_LIMIT
      invariant n == 0 ==> i == |all|
      invariant n != 0 ==> |Digits(n, base, small)| + i == |all| && forall k :: 0 <= k < |all| - i ==>
                  all[k] == Digits(n, base, small)[k]
      invariant forall k :: 0 <= k < i ==> tmp[k] == all[|all| - 1 - k]
      decreases n
    {
      LastDigit(n, base, small);
      var digit, q := DoDiv(n, base);
      tmp[i] := DigitChar(digit, small);
      i := i + 1;
      n := q;
    }
  }

  lemma ZeroDigit(base: nat, small: bool)
    requires 2 <= base <= 36
    ensures Digits(0, base, small) == "0"
  {
  }

  lemma LastDigit(n: nat, base: nat, small: bool)
    requires 2 <= base <= 36 && n > 0
    ensures n % base < base
    ensures var s := Digits(n, base, small);
            && s[|s| - 1] == DigitChar(n % base, small)
            && (n / base == 0 ==> |s| == 1)
            && (n / base != 0 ==> |Digits(n / base, base, small)| == |s| - 1 && forall k :: 0 <= k < |s| - 1 ==>
                  s[k] == Digits(n / base, base, small)[k])
  {
    Smaller(n, base);
    if n < base { SmallMod(n, base); } else { BigDiv(n, base); }
  }

  lemma SmallMod(n: nat, base: nat)
    requires n < base
    ensures n % base == n && n / base == 0
  {
  }

  lemma BigDiv(n: nat, base: nat)
    requires n >= base >= 2
    ensures n / base > 0
  {
    Smaller(n, base);
  }

  /** while (size-- > 0) *str++ = c; the output, and the counter afterwards. */
  method Pad(str: string, c: char, size: int) returns (out: string, left: int)
    ensures out == str + Repeat(c, size) && left == (if size > 0 then -1 else size - 1)
  {
    out, left := str, size;
    ghost var k := 0;
    while left > 0
      invariant k >= 0 && left == size - k && (size > 0 ==> left >= 0) && (size <= 0 ==> k == 0)
      invariant out == str + Repeat(c, k)
    {
      out := out + [c];
      left := left - 1;
      k := k + 1;
    }
    left := left - 1;
  }

  /** The blanks in front, for a number that is neither left-justified nor padded with zeros. */
  method LeadingBlanks(field: int, blanks: bool) returns (out: string, size: int)
    ensures out == Repeat(' ', if blanks then field else 0) && size == if !blanks then field else if field > 0 then -1
              else field - 1
  {
    out, size := "", field;
    if blanks { out, size := Pad("", ' ', field); }
    Empty(out, Repeat(' ', if blanks then field else 0));
  }

  lemma Empty(a: string, b: string)
    ensures Repeat(' ', 0) == "" && "" + b == b && a + "" == a
  {
  }

  /** The digits out of tmp. */
  method CopyDigits(str: string, tmp: array<char>, i: nat, ghost digits: string) returns (out: string)
    requires i == |digits| <= tmp.Length && forall k :: 0 <= k < i ==> tmp[k] == digits[i - 1 - k]
    ensures out == str + digits
  {
    out := str;
    var k := i;
    while k > 0
      invariant 0 <= k <= i && out == str + digits[..i - k]
    {
      k := k - 1;
      out := out + [tmp[k]];
      assert digits[..i - k] == digits[..i - k - 1] + [digits[i - k - 1]];
    }
    assert digits[..i] == digits;
  }

  /** Sign and prefix. */
  method Front(num: int, base: nat, f: Flags) returns (sign: string, prefix: string, width: nat)
    ensures sign == SignOf(num, f) && prefix == Prefix(base, f) && width == |sign| + |prefix|
  {
    sign := if f.sign && num < 0 then "-" else if f.plus then "+" else if f.space then " " else "";
    width := 0;
    if sign != "" { width := 1; }
    prefix := "";
    if f.special {
      if base == 16 {
        width := width + 2;
        prefix := if f.small then "0x" else "0X";
      } else if base == 8 {
        width := width + 1;
        prefix := "0";
      }
    }
  }

  /** Everything before the digits; size: what is left for blanks after them. */
  method Head(pad: int, zeropad: bool, left: bool, sign: string, prefix: string) returns (str: string, size: int)
    requires zeropad ==> !left
    ensures str == Repeat(' ', if zeropad || left then 0 else pad) + sign + prefix +
              Repeat('0', if zeropad then pad else 0)
    ensures Repeat(' ', size) == Repeat(' ', if left then pad else 0)
  {
    hide Repeat;
    str, size := LeadingBlanks(pad, !zeropad && !left);
    str := str + sign;
    str := str + prefix;
    ghost var front := str;
    if !left { str, size := Pad(str, if zeropad then '0' else ' ', size); }
    NoneLeft(front, str, zeropad, left, pad);
    NoBlanks("", ' ', size);
  }

  /** The zeros for the precision, the digits, and blanks. */
  method Tail(str0: string, tmp: array<char>, i: nat, precision: int, size: int,
          ghost digits: string) returns (str: string)
    requires i == |digits| <= tmp.Length && forall k :: 0 <= k < i ==> tmp[k] == digits[i - 1 - k]
    ensures str == str0 + Repeat('0', precision - i) + digits + Repeat(' ', size)
  {
    hide Repeat;
    var ignored;
    str, ignored := Pad(str0, '0', precision - i);
    str := CopyDigits(str, tmp, i, digits);
    str, ignored := Pad(str, ' ', size);
  }

  /** number: None for a base it cannot print. The 36 cells of tmp are enough: 32 are ever used. */
  method Number(num: int, base: nat, size0: int, precision0: int, f: Flags) returns (r: Option<string>)
    requires -INT_LIMIT <= num < INT_LIMIT
    ensures r == if 2 <= base <= 36 then Some(Output(Layout(num, base, size0, precision0, f))) else None
  {
    hide Digits, Repeat, DigitChar, SignOf, Prefix, Output, Layout;
    if base < 2 || base > 36 { return None; }
    var zeropad := f.zeropad && !f.left;
    var value := if num >= 0 then num else if f.sign then -num else num + WORD_LIMIT;
    var sign, prefix, width := Front(num, base, f);
    var tmp := new char[TMP_SIZE];
    var i := FillTmp(tmp, value, base, f.small);
    var precision := if i > precision0 then i else precision0;
    var pad := size0 - width - precision;
    ghost var digits := Digits(value, base, f.small);
    var str, size := Head(pad, zeropad, f.left, sign, prefix);
    str := Tail(str, tmp, i, precision, size, digits);
    OutputIs(num, base, size0, precision0, f, pad, precision);
    r := Some(str);
  }

  /** A counter that is not positive adds nothing. */
  lemma NoBlanks(s: string, c: char, n: int)
    ensures n <= 0 ==> Repeat(c, n) == "" && s + Repeat(c, n) == s
    ensures Repeat(c, 0) == "" && s + "" == s
  {
  }

  lemma NoneLeft(front: string, str: string, zeropad: bool, left: bool, pad: int)
    requires zeropad ==> !left
    requires left ==> str == front
    requires zeropad ==> str == front + Repeat('0', pad)
    requires !left && !zeropad ==> str == front + Repeat(' ', if pad > 0 then -1 else pad - 1)
    ensures str == front + Repeat('0', if zeropad then pad else 0)
  {
  }

  /** The output, as the counters of the code have it: they may be negative, and print nothing then. */
  lemma OutputIs(num: int, base: nat, size: int, precision: int, f: Flags, pad: int, width: int)
    requires -INT_LIMIT <= num < INT_LIMIT && 2 <= base <= 36
    requires width == Max(precision, |Digits(Magnitude(num, f.sign), base, f.small)|)
    requires pad == size - |SignOf(num, f)| - |Prefix(base, f)| - width
    ensures var (digits, zeropad) := (Digits(Magnitude(num, f.sign), base, f.small), f.zeropad && !f.left);
            Output(Layout(num, base, size, precision, f)) ==
            Repeat(' ', if zeropad || f.left then 0 else pad) + SignOf(num, f) + Prefix(base, f)
            + Repeat('0', if zeropad then pad else 0) + Repeat('0', width - |digits|) + digits +
                Repeat(' ', if f.left then pad else 0)
  {
    hide Digits, Repeat, SignOf, Prefix;
    var (digits, zeropad) := (Digits(Magnitude(num, f.sign), base, f.small), f.zeropad && !f.left);
    Assembled(if zeropad || f.left then 0 else pad, SignOf(num, f), Prefix(base, f), if zeropad then pad else 0,
              width - |digits|, digits, if f.left then pad else 0);
  }

  lemma RepeatTwice(c: char, a: int, b: int)
    ensures Repeat(c, a) + Repeat(c, b) == Repeat(c, Max(a, 0) + Max(b, 0)) && Repeat(c, a) == Repeat(c, Max(a, 0))
  {
  }

  lemma Assembled(b: int, sign: string, prefix: string, z1: int, z2: int, digits: string, a: int)
    ensures Repeat(' ', b) + sign + prefix + Repeat('0', z1) + Repeat('0', z2) + digits + Repeat(' ', a) ==
            Repeat(' ', Max(b, 0)) + (sign + prefix) + Repeat('0', Max(z1, 0) + Max(z2, 0)) + digits +
                Repeat(' ', Max(a, 0))
  {
    hide Repeat;
    RepeatTwice(' ', b, 0);
    RepeatTwice(' ', a, 0);
    RepeatTwice('0', z1, z2);
    Associate(Repeat(' ', b), sign, prefix);
    Associate(Repeat(' ', b) + (sign + prefix), Repeat('0', z1), Repeat('0', z2));
  }

  lemma Associate(a: string, b: string, c: string)
    ensures a + b + c == a + (b + c)
  {
  }

  // ---- skip_atoi ----

  /** The int that a 32-bit sum turns into. */
  function Wrapped(x: int): (i: int)
    ensures -INT_LIMIT <= i < INT_LIMIT && (-INT_LIMIT <= x < INT_LIMIT ==> i == x)
  {
    (x + INT_LIMIT) % WORD_LIMIT - INT_LIMIT
  }

  /** Cutting a sum to 32 bits early or late gives the same. */
  lemma WrappedStep(x: int, d: int)
    ensures Wrapped(Wrapped(x) * 10 + d) == Wrapped(x * 10 + d)
  {
    var q := (x + INT_LIMIT) / WORD_LIMIT;
    assert Wrapped(x) == x - q * WORD_LIMIT;
    WrappedTurns(x * 10 + d, -10 * q);
  }

  lemma WrappedTurns(y: int, k: int)
    ensures Wrapped(y + k * WORD_LIMIT) == Wrapped(y)
  {
  }

  /** skip_atoi: the number, as far as it fits an int, and what follows it. */
  method SkipAtoi(s: string) returns (i: int, rest: string)
    ensures exists k :: 0 <= k <= |s| && rest == s[k..] && i == Wrapped(Value(s[..k], 10)) &&
              (forall j :: 0 <= j < k ==> IsDigit(s[j])) && (k < |s| ==> !IsDigit(s[k]))
  {
    hide Wrapped;
    var k := 0;
    i := 0;
    while k < |s| && IsDigit(s[k])
      invariant 0 <= k <= |s| && i == Wrapped(Value(s[..k], 10)) && forall j :: 0 <= j < k ==> IsDigit(s[j])
    {
      assert s[..k + 1][..k] == s[..k];
      WrappedStep(Value(s[..k], 10), s[k] as nat - '0' as nat);
      i := Wrapped(i * 10 + (s[k] as nat - '0' as nat));
      k := k + 1;
    }
    rest := s[k..];
  }

  lemma {:induction false} OnlyDigits(v: nat, small: bool)
    ensures forall j :: 0 <= j < |Digits(v, 10, small)| ==> IsDigit(Digits(v, 10, small)[j])
    decreases v
  {
    hide DigitValue;
    if v >= 10 {
      Smaller(v, 10);
      OnlyDigits(v / 10, small);
    }
  }

  /** Reading back what was printed plainly: the same number, and all of it read. */
  method ReadBack(num: nat, f: Flags) returns (i: int, rest: string)
    requires num < INT_LIMIT && !f.plus && !f.space && !f.special
    ensures i == num && rest == ""
  {
    var r := Number(num, 10, -1, -1, f);
    assert r.value == Digits(num, 10, f.small) by { PlainOutput(num, f); }
    OnlyDigits(num, f.small);
    DigitsDenote(num, 10, f.small);
    i, rest := SkipAtoi(r.value);
    assert Wrapped(num) == num;
    ghost var k :| 0 <= k <= |r.value| && rest == r.value[k..] && i == Wrapped(Value(r.value[..k], 10)) &&
        (k < |r.value| ==> !IsDigit(r.value[k]));
    assert r.value[..|r.value|] == r.value;
  }

  lemma PlainOutput(num: nat, f: Flags)
    requires num < INT_LIMIT && !f.plus && !f.space && !f.special
    ensures Output(Layout(num, 10, -1, -1, f)) == Digits(num, 10, f.small)
  {
    hide Digits;
  }

  // ---- Reading back with sign, prefix and padding ----

  function SkipBlanks(s: string): string { if s != "" && s[0] == ' ' then SkipBlanks(s[1..]) else s }

  function UpToBlank(s: string): string { if s == "" || s[0] == ' ' then "" else [s[0]] + UpToBlank(s[1..]) }

  /** What is left of a number when the prefix of its base is taken off; None: it is not there. */
  function Unprefixed(s: string, base: nat, f: Flags): Option<string> {
    if !f.special || (base != 8 && base != 16) then Some(s)
    else if base == 8 then (if |s| > 0 && s[0] == '0' then Some(s[1..]) else None)
    else if |s| > 1 && s[0] == '0' && s[1] == (if f.small then 'x' else 'X') then Some(s[2..]) else None
  }

  function Body(s: string, base: nat, f: Flags): Option<int> {
    match Unprefixed(s, base, f) case None => None case Some(t) => Some(Value(UpToBlank(t), base))
  }

  /** A reader of numbers: blanks, a sign, the prefix, digits up to a blank. */
  function Parsed(s: string, base: nat, f: Flags): Option<int> {
    var t := SkipBlanks(s);
    if t != "" && t[0] == '-' then (match Body(t[1..], base, f) case None => None case Some(v) => Some(-v))
    else if t != "" && t[0] == '+' then Body(t[1..], base, f)
    else Body(t, base, f)
  }

  lemma {:induction false} BlanksSkipped(n: nat, t: string)
    requires t == "" || t[0] != ' '
    ensures SkipBlanks(Repeat(' ', n) + t) == t
  {
    if n > 0 {
      assert (Repeat(' ', n) + t)[1..] == Repeat(' ', n - 1) + t;
      BlanksSkipped(n - 1, t);
    } else {
      assert Repeat(' ', n) + t == t;
    }
  }

  lemma {:induction false} BlanksEnd(s: string, n: nat)
    requires forall i :: 0 <= i < |s| ==> s[i] != ' '
    ensures UpToBlank(s + Repeat(' ', n)) == s
  {
    if s != "" {
      assert (s + Repeat(' ', n))[1..] == s[1..] + Repeat(' ', n);
      BlanksEnd(s[1..], n);
    } else {
      assert s + Repeat(' ', n) == Repeat(' ', n);
    }
  }

  /** Digits are digits, and letters of the case asked for. */
  lemma {:induction false} DigitsCase(v: nat, base: nat, small: bool)
    requires 2 <= base <= 36
    ensures forall i :: 0 <= i < |Digits(v, base, small)| ==>
              var c := Digits(v, base, small)[i]; IsDigit(c) || if small then 'a' <= c <= 'z' else 'A' <= c <= 'Z'
    decreases v
  {
    if v >= base {
      Smaller(v, base);
      DigitsCase(v / base, base, small);
    }
  }

  lemma ZerosAre(n: nat)
    ensures |Repeat('0', n)| == n && forall i :: 0 <= i < n ==> Repeat('0', n)[i] == '0'
  {
  }

  predicate Starts(s: string) { s != "" && s[0] != ' ' && s[0] != '-' && s[0] != '+' }

  lemma BodyIs(zeros: nat, digits: string, after: nat, base: nat, f: Flags)
    requires digits != "" && forall i :: 0 <= i < |digits| ==> digits[i] != ' ' && digits[i] != '-' && digits[i] != '+'
    ensures var s := Prefix(base, f) + (Repeat('0', zeros) + digits + Repeat(' ', after));
            Starts(s) && Body(s, base, f) == Some(Value(digits, base))
  {
    var (z, x) := (Repeat('0', zeros), Prefix(base, f));
    var rest := z + digits + Repeat(' ', after);
    ZerosAre(zeros);
    BlanksEnd(z + digits, after);
    LeadingZeros(zeros, digits, base);
    hide Repeat, Value, UpToBlank;
    assert rest[0] == (z + digits)[0];
    assert (x + rest)[|x|..] == rest;
  }

  lemma DigitsPlain(v: nat, base: nat, small: bool)
    requires 2 <= base <= 36
    ensures Digits(v, base, small) != ""
    ensures forall i :: 0 <= i < |Digits(v, base, small)| ==>
              var c := Digits(v, base, small)[i]; c != ' ' && c != '-' && c != '+'
  {
    hide Digits;
    DigitsCase(v, base, small);
  }

  lemma SignParsed(blanks: nat, sign: string, rest: string, base: nat, f: Flags, v: int)
    requires sign in {"-", "+", " ", ""} && Starts(rest) && Body(rest, base, f) == Some(v)
    ensures Parsed(Repeat(' ', blanks) + (sign + rest), base, f) == Some(if sign == "-" then -v else v)
  {
    hide Repeat, Body, SkipBlanks;
    if sign == " " {
      OneMoreBlank(blanks, rest);
      BlanksSkipped(blanks + 1, rest);
    } else if sign == "" {
      assert "" + rest == rest;
      BlanksSkipped(blanks, rest);
    } else {
      assert (sign + rest)[1..] == rest && (sign + rest)[0] == sign[0];
      BlanksSkipped(blanks, sign + rest);
    }
  }

  /** Whatever the flags, the field and the precision, a signed number reads back as itself, the most negative int too,
      and an unsigned one as its 32-bit word. */
  lemma PrintedParses(num: int, base: nat, size: int, precision: int, f: Flags)
    requires -INT_LIMIT <= num < INT_LIMIT && 2 <= base <= 36
    ensures Parsed(Output(Layout(num, base, size, precision, f)), base, f) ==
            Some(if f.sign then num else num % WORD_LIMIT)
  {
    hide Digits, Repeat, Parsed, Prefix, Body;
    var p := Layout(num, base, size, precision, f);
    var rest := Prefix(base, f) + (Repeat('0', p.zeros) + p.digits + Repeat(' ', p.after));
    DigitsPlain(Magnitude(num, f.sign), base, f.small);
    DigitsDenote(Magnitude(num, f.sign), base, f.small);
    BodyIs(p.zeros, p.digits, p.after, base, f);
    SignParsed(p.before, SignOf(num, f), rest, base, f, Magnitude(num, f.sign));
    Regroup(Repeat(' ', p.before), SignOf(num, f), Prefix(base, f), Repeat('0', p.zeros), p.digits,
            Repeat(' ', p.after));
  }

  lemma Regroup(a: string, b: string, c: string, d: string, e: string, f: string)
    ensures a + (b + c) + d + e + f == a + (b + (c + (d + e + f)))
  {
  }

  lemma OneMoreBlank(n: nat, rest: string)
    ensures Repeat(' ', n) + (" " + rest) == Repeat(' ', n + 1) + rest
  {
  }

  /** A number that is not printed with a minus sign has a plus sign with PLUS, else a blank with SPACE, else neither,
      in front of the prefix. */
  lemma SignShown(num: int, base: nat, size: int, precision: int, f: Flags)
    requires -INT_LIMIT <= num < INT_LIMIT && 2 <= base <= 36
    ensures var p := Layout(num, base, size, precision, f);
            && p.before + |p.front| <= |Output(p)|
            && var front := Output(p)[p.before..p.before + |p.front|];
               var n := if f.special && base == 16 then 2 else if f.special && base == 8 then 1 else 0;
               if f.sign && num < 0 then |front| == n + 1 && front[0] == '-'
               else if f.plus then |front| == n + 1 && front[0] == '+'
               else if f.space then |front| == n + 1 && front[0] == ' '
               else |front| == n && (n > 0 ==> front[0] == '0')
  {
    OutputDenotes(num, base, size, precision, f);
  }

  /** Blanks stand before the number only if it is justified to the right and not padded with zeros, and after it only
      if it is justified to the left; zeros beyond the precision only pad. */
  lemma Justified(num: int, base: nat, size: int, precision: int, f: Flags)
    requires -INT_LIMIT <= num < INT_LIMIT && 2 <= base <= 36
    ensures var (p, n) := (Layout(num, base, size, precision, f), |Digits(Magnitude(num, f.sign), base, f.small)|);
            var out := Output(p);
            && out != ""
            && (p.before > 0 ==> !f.left && !f.zeropad && out[0] == ' ')
            && (out[|out| - 1] == ' ' ==> f.left && p.after > 0)
            && (p.zeros > Max(precision, n) - n ==> f.zeropad && !f.left)
  {
    DigitsPlain(Magnitude(num, f.sign), base, f.small);
    hide Digits, SignOf, Prefix;
  }
}

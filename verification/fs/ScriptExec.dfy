/** The #! path of execve (linux-0.11/fs/exec.c): reading the interpreter's name and
    argument from the first line, and putting them in front of the script's arguments. */
module ScriptExec {
  import opened Basics
  import opened ExecArguments

  const NEWLINE := 10
  const SPACE := 32
  const TAB := 9
  const SLASH := 47

  datatype Bang = NoInterpreter | Bang(interp: Text, name: Text, arg: Option<Text>)

  predicate Blank(c: nat) { c == SPACE || c == TAB }

  ghost predicate AllBlank(s: Text) { forall i :: 0 <= i < |s| ==> Blank(s[i]) }

  ghost predicate OneLine(s: Text) { forall i :: 0 <= i < |s| ==> s[i] != 0 && s[i] != NEWLINE }

  /** The first line of the text after #!, if it has an end. */
  ghost predicate FirstLine(text: seq<nat>, line: Text) {
    |line| < |text| && text[..|line|] == line && text[|line|] == NEWLINE && OneLine(line)
  }

  ghost predicate Before(line: Text, b: Bang, blanks: Text, sep: nat)
    requires b.Bang?
  {
    && AllBlank(blanks) && Blank(sep)
    && line == blanks + b.interp + (if b.arg.Some? then [sep] + b.arg.value else [])
  }

  /** The line taken apart: blanks, the interpreter, and after one blank its argument. */
  ghost predicate Parsed(line: Text, b: Bang)
    requires b.Bang?
  {
    && b.interp != [] && (forall i :: 0 <= i < |b.interp| ==> !Blank(b.interp[i]))
    && (exists blanks: Text, sep: nat :: Before(line, b, blanks, sep))
    && |b.name| <= |b.interp| && b.interp[|b.interp| - |b.name|..] == b.name && SLASH !in b.name
    && (|b.name| < |b.interp| ==> b.interp[|b.interp| - |b.name| - 1] == SLASH)
  }

  /** strchr(buf, '\n'), on the at most 1022 bytes after #!. */
  method FindNewline(text: seq<nat>) returns (n: nat, found: bool)
    ensures n <= |text| && (found ==> FirstLine(text, text[..n]))
    ensures !found ==> forall line :: !FirstLine(text, line)
  {
    n := 0;
    while n < |text| && text[n] != 0 && text[n] != NEWLINE
      invariant n <= |text| && forall i :: 0 <= i < n ==> text[i] != 0 && text[i] != NEWLINE
    {
      n := n + 1;
    }
    found := n < |text| && text[n] == NEWLINE;
    if !found {
      forall line ensures !FirstLine(text, line) { NoFirstLine(text, n, line); }
    }
  }

  lemma NoFirstLine(text: seq<nat>, n: nat, line: Text)
    requires n <= |text| && (forall i :: 0 <= i < n ==> text[i] != NEWLINE) && (n < |text| ==> text[n] == 0)
    ensures !FirstLine(text, line)
  {
  }

  /** The interpreter and its argument. */
  method ParseBang(text: seq<nat>) returns (b: Bang)
    ensures b.Bang? ==> exists line :: FirstLine(text, line) && Parsed(line, b)
    ensures b.NoInterpreter? ==> forall line :: FirstLine(text, line) ==> AllBlank(line)
  {
    hide Parsed, FirstLine;
    var n, found := FindNewline(text);
    if !found { return NoInterpreter; }
    var line := text[..n];
    var cp := 0;
    while cp < n && Blank(line[cp])
      invariant 0 <= cp <= n && forall i :: 0 <= i < cp ==> Blank(line[i])
    {
      cp := cp + 1;
    }
    if cp == n {
      forall l | FirstLine(text, l) ensures AllBlank(l) { OneFirstLine(text, line, l); }
      return NoInterpreter;
    }
    var interp, name := cp, cp;
    while cp < n && !Blank(line[cp])
      invariant interp <= name <= cp <= n
      invariant forall i :: interp <= i < cp ==> !Blank(line[i])
      invariant (forall i :: name <= i < cp ==> line[i] != SLASH) && (name > interp ==> line[name - 1] == SLASH)
    {
      if line[cp] == SLASH { name := cp + 1; }
      cp := cp + 1;
    }
    b := Bang(line[interp..cp], line[name..cp], if cp < n then Some(line[cp + 1..]) else None);
    MakeParsed(line, interp, name, cp, b);
  }

  lemma MakeParsed(line: Text, interp: nat, name: nat, cp: nat, b: Bang)
    requires interp <= name <= cp <= |line| && interp < cp && AllBlank(line[..interp])
    requires (cp < |line| ==> Blank(line[cp]))
    requires (forall i :: interp <= i < cp ==> !Blank(line[i])) && (forall i :: name <= i < cp ==> line[i] != SLASH)
    requires (name > interp ==> line[name - 1] == SLASH)
    requires b == Bang(line[interp..cp], line[name..cp], if cp < |line| then Some(line[cp + 1..]) else None)
    ensures Parsed(line, b)
  {
    hide AllBlank;
    var sep: nat := if cp < |line| then line[cp] else SPACE;
    TakenApart(line, interp, cp);
    assert Before(line, b, line[..interp], sep);
    LastPart(line, interp, name, cp);
  }

  /** What follows the last slash. */
  lemma LastPart(line: Text, interp: nat, name: nat, cp: nat)
    requires interp <= name <= cp <= |line| && (forall i :: name <= i < cp ==> line[i] != SLASH)
    requires (name > interp ==> line[name - 1] == SLASH)
    ensures var (whole, last) := (line[interp..cp], line[name..cp]);
            && whole[|whole| - |last|..] == last && SLASH !in last
            && (|last| < |whole| ==> whole[|whole| - |last| - 1] == SLASH)
  {
  }

  lemma TakenApart(line: Text, a: nat, b: nat)
    requires a <= b <= |line|
    ensures line == line[..a] + line[a..b] + (if b < |line| then [line[b]] + line[b + 1..] else [])
  {
  }

  lemma OneFirstLine(text: seq<nat>, a: Text, b: Text)
    requires FirstLine(text, a) && FirstLine(text, b)
    ensures a == b
  {
  }

  /** What the interpreter is to be given. */
  function ScriptArgs(b: Bang, filename: Text, args: seq<Text>): seq<Text>
    requires b.Bang?
  {
    [b.name] + (if b.arg.Some? then [b.arg.value] else []) + [filename] + (if args == [] then [] else args[1..])
  }

  lemma {:induction false} HoldsPrefix(m: Memory, p: nat, all: seq<Text>, n: nat)
    requires Holds(m, p, Join(all)) && n <= |all|
    ensures Holds(m, p, Join(all[..n])) && |Join(all[..n])| <= |Join(all)|
  {
    JoinSplit(all[..n], all[n..]);
    assert all == all[..n] + all[n..];
    HoldsParts(m, m, p, Join(all[..n]), Join(all[n..]));
  }

  /** The strings copied, in the order in which they end up in memory; copied from the last to the first. */
  method CopyAll(pages: ArgPages, b: Bang, filename: Text, args: seq<Text>, envs: seq<Text>) returns (p: nat)
    requires b.Bang? && pages.Valid() && pages.UsedFrom(START) && |Join(ScriptArgs(b, filename, args) + envs)| <= START
    modifies pages, pages.page
    ensures pages.Valid()
    ensures var n := |Join(ScriptArgs(b, filename, args) + envs)|; p == 0 <==>
              n == START || old(pages.left) < PagesFor(n)
    ensures p != 0 ==>
              && p == START - |Join(ScriptArgs(b, filename, args) + envs)| && pages.UsedFrom(p)
              && pages.Copied(Join(ScriptArgs(b, filename, args) + envs), p, START, old(pages.Space()))
  {
    hide Join, LowestPage;
    ghost var before := pages.Space();
    var rest := if args == [] then [] else args[1..];
    Lengths(b, filename, args, envs);
    ghost var (n, total, left) := (0, |Join(ScriptArgs(b, filename, args) + envs)|, pages.left);
    p := pages.CopyStrings(envs, START);
    n := |Join(envs)|;
    LowestPageDown(START - total, START - n);
    p, n := CopyMore(pages, rest, p, envs, before, n, total, left);
    p, n := CopyMore(pages, [filename], p, rest + envs, before, n, total, left);
    ghost var done := [filename] + (rest + envs);
    if b.arg.Some? {
      p, n := CopyMore(pages, [b.arg.value], p, done, before, n, total, left);
      done := [b.arg.value] + done;
    }
    p, n := CopyMore(pages, [b.name], p, done, before, n, total, left);
    assert [b.name] + done == ScriptArgs(b, filename, args) + envs;
  }

  lemma Lengths(b: Bang, filename: Text, args: seq<Text>, envs: seq<Text>)
    requires b.Bang?
    ensures var (rest, arg) := (if args == [] then [] else args[1..], if b.arg.Some? then [b.arg.value] else []);
            |Join(ScriptArgs(b, filename, args) + envs)| == |Join([b.name])| + |Join(arg)| + |Join([filename])| +
                |Join(rest)| + |Join(envs)|
  {
    hide Join;
    var (rest, arg) := (if args == [] then [] else args[1..], if b.arg.Some? then [b.arg.value] else []);
    JoinSplit([b.name] + arg + [filename] + rest, envs);
    JoinSplit([b.name] + arg + [filename], rest);
    JoinSplit([b.name] + arg, [filename]);
    JoinSplit([b.name], arg);
  }

  /** The space below START holds the strings `done`, n bytes in all; p is where they begin, or 0 if there was no
      room or no page for them. */
  ghost predicate Filled(pages: ArgPages, p: nat, done: seq<Text>, before: seq<nat>, n: nat, left: nat)
    requires pages.Valid()
    reads pages, pages.page
  {
    && n == |Join(done)| <= START && (p == 0 <==> n == START || left < PagesFor(n))
    && (p != 0 ==> p == START - n && pages.Copied(Join(done), p, START, before))
    && (p != 0 ==> pages.UsedFrom(p) && pages.left == left - PagesFor(n))
  }

  /** Strings put below those already copied; copy_strings does nothing if those did not fit. */
  method CopyMore(pages: ArgPages, ss: seq<Text>, start: nat, ghost done: seq<Text>, ghost before: seq<nat>,
                  ghost n: nat, ghost total: nat, ghost left: nat)
    returns (p: nat, ghost m: nat)
    requires pages.Valid() && Filled(pages, start, done, before, n, left) && n + |Join(ss)| <= total <= START
    modifies pages, pages.page
    ensures pages.Valid() && Filled(pages, p, ss + done, before, m, left) && m == n + |Join(ss)|
  {
    hide Join, LowestPage;
    JoinSplit(ss, done);
    m := n + |Join(ss)|;
    LowestPageDown(START - m, START - n);
    p := pages.CopyStrings(ss, start);
  }

  /** The argument passing of a script: the interpreter finds its own name, its argument if any, the
      script's name, and the script's arguments after the first. Called with no argument at all, execve
      counts one too few, and the script's name is taken for the environment's first string. */
  method ExecveScript(b: Bang, filename: Text, args: seq<Text>, envs: seq<Text>, left: nat,
          user: UserMemory) returns (sp: nat, p: nat)
    requires b.Bang? && AreTexts(ScriptArgs(b, filename, args) + envs)
    requires |Join(ScriptArgs(b, filename, args) + envs)| <= START
    modifies user
    ensures var n := |Join(ScriptArgs(b, filename, args) + envs)|; sp == 0 <==> n == START || left < PagesFor(n)
    ensures sp != 0 ==>
              var s := ScriptArgs(b, filename, args) + envs;
              var n := |ScriptArgs(b, filename, args)| - (if args == [] then 1 else 0);
              && Ready(user.mem, sp, p, s[..n], s[n..n + |envs|]) && Holds(user.mem, p, Join(s))
  {
    hide Join, Holds, Ready, AreTexts;
    sp := 0;
    var pages := new ArgPages(left);
    p := CopyAll(pages, b, filename, args, envs);
    if p == 0 { return; }
    ChangeLdt(pages, user);
    ghost var s := ScriptArgs(b, filename, args) + envs;
    ghost var (all, start) := (Join(s), p);
    forall k | 0 <= k < |all| ensures ByteAt(user.mem, TOP + start + k) == all[k] {
      assert pages.Flat(start + k) == all[k];
      LowestPageDown(start, start + k);
    }
    HoldsFrom(user.mem, TOP + start, all);
    p := p + DATA_LIMIT - ARG_SPACE;
    var argc := |args| - 1;                     // --argc, then one more for each string put in front
    argc := argc + 1;
    if b.arg.Some? { argc := argc + 1; }
    argc := argc + 1;
    assert argc == |ScriptArgs(b, filename, args)| - (if args == [] then 1 else 0);
    ghost var m := user.mem;
    TwoTables(m, p, s, argc, |envs|);
    sp := user.CreateTables(p, argc, |envs|, s[..argc], s[argc..argc + |envs|]);
    HoldsStill(m, user.mem, p, Join(s));
  }

  lemma HoldsStill(m: Memory, m': Memory, p: nat, s: seq<nat>)
    requires Holds(m, p, s) && forall x: nat :: p <= x ==> ByteAt(m', x) == ByteAt(m, x)
    ensures Holds(m', p, s)
  {
  }

  /** The first n and the next k strings. */
  lemma TwoTables(m: Memory, p: nat, s: seq<Text>, n: nat, k: nat)
    requires Holds(m, p, Join(s)) && AreTexts(s) && n + k <= |s| && p >= TOP && p + |Join(s)| == DATA_LIMIT - 4
    ensures AreTexts(s[..n]) && AreTexts(s[n..n + k]) && Holds(m, p, Join(s[..n]) + Join(s[n..n + k]))
    ensures p + |Join(s[..n])| + |Join(s[n..n + k])| < 0x1_0000_0000 && p >= 4 * (n + k + 6)
  {
    hide Join, Holds;
    TextsPart(s, n, k);
    HoldsPrefix(m, p, s, n + k);
    assert s[..n + k] == s[..n] + s[n..n + k];
    JoinSplit(s[..n], s[n..n + k]);
    JoinLength(s);
  }

  lemma TextsPart(s: seq<Text>, n: nat, k: nat)
    requires AreTexts(s) && n + k <= |s|
    ensures AreTexts(s[..n]) && AreTexts(s[n..n + k])
  {
    forall i | 0 <= i < n ensures IsText(s[..n][i]) { assert IsText(s[i]); }
    var u := s[n..n + k];
    forall i | 0 <= i < |u| ensures IsText(u[i]) { assert IsText(s[n + i]); }
  }

  /** The interpreter sees the right arguments exactly when execve was called with at least one. */
  lemma ScriptExactly(m: Memory, sp: nat, p: nat, b: Bang, filename: Text, args: seq<Text>, envs: seq<Text>)
    requires b.Bang?
    requires var s := ScriptArgs(b, filename, args) + envs;
             var n := |ScriptArgs(b, filename, args)| - (if args == [] then 1 else 0);
             Ready(m, sp, p, s[..n], s[n..n + |envs|])
    ensures Ready(m, sp, p, ScriptArgs(b, filename, args), envs) <==> args != []
  {
    var s := ScriptArgs(b, filename, args);
    if args != [] {
      assert (s + envs)[..|s|] == s && (s + envs)[|s|..|s| + |envs|] == envs;
    }
  }
}

/** What sed prints: the commands on the registers, seen from outside. */
module SedOutput {
  import opened Basics
  import opened SedMachine
  import opened SedNested

  /** A script of one command on every line. */
  function Only(e: Edit): Script { Cons(Leaf(Cmd(Range(Every, Ignore), false, Apply(e))), Nil) }

  /** What stands on the output, and in the hold space, when a cycle of it is over. */
  function Shown(w: World, e: Edit, r: Regs): seq<string> { DoWrites(AutoPrint(w.quiet, DoEdit(w, e, r))).out }

  lemma OnlyConsults(w: World, e: Edit, s: State)
    requires Alive(s) && |s.inMatch| > 0
    ensures var c := Cmd(Range(Every, Ignore), false, Apply(e));
            InRange(EnvOf(w), c, 0, s).0 && InRange(EnvOf(w), c, 0, s).1.r == s.r
  {
  }

  /** A script of one command means that command. */
  lemma OneMeans(env: Env, c: Cmd, k: nat, s: State)
    requires |s.inMatch| > k
    ensures Mean(env, Cons(Leaf(c), Nil), k, s) == MeanLeaf(env, c, k, s)
  {
    var q := MeanLeaf(env, c, k, s);
    assert MeanItem(env, Leaf(c), k, s) == q;
    assert Mean(env, Nil, k + 1, q.1) == (Go, q.1) && Skip(env, Nil, k + 1, q.1) == q.1;
  }

  /** An edit in its range is carried out. */
  lemma LeafMeans(env: Env, c: Cmd, e: Edit, s: State)
    requires |s.inMatch| > 0 && c.op == Apply(e)
    requires InRange(env, c, 0, s).0 && Alive(InRange(env, c, 0, s).1)
    ensures var (f, t) := MeanLeaf(env, c, 0, s);
            t.r == env.edit(e, InRange(env, c, 0, s).1.r) && f == FlowOf(t)
  {
  }

  lemma OnlyMeans(w: World, e: Edit, s: State)
    requires Alive(s) && |s.inMatch| > 0
    ensures var q := Mean(EnvOf(w), Only(e), 0, s);
            q.1.r == DoEdit(w, e, s.r) && q.0 == FlowOf(q.1)
  {
    var c := Cmd(Range(Every, Ignore), false, Apply(e));
    OnlyConsults(w, e, s);
    OneMeans(EnvOf(w), c, 0, s);
    LeafMeans(EnvOf(w), c, e, s);
  }

  lemma OnlyRuns(w: World, e: Edit, s: State)
    requires Alive(s) && |s.inMatch| > 0 && DoEdit(w, e, s.r).status == Going
    ensures var r := Cycle(EnvOf(w), Only(e), s).r;
            r.out == Shown(w, e, s.r) && r.hold == DoEdit(w, e, s.r).hold
  {
    OnlyMeans(w, e, s);
  }

  lemma ShownIs(w: World, e: Edit, r: Regs)
    ensures var q := DoEdit(w, e, r);
            Shown(w, e, r) == q.out + (if w.quiet then [] else [q.patt]) + q.writes
  {
    Nothing(DoEdit(w, e, r).out);
  }

  lemma Nothing<T>(out: seq<T>)
    ensures out + [] == out == [] + out
  {
  }

  lemma Two(out: seq<string>, x: string, y: string)
    ensures out + [x] + [y] == out + [x, y]
  {
  }

  /** With `-n` each command prints what is its own. */
  lemma PrintedAlone(w: World, r: Regs, text: string)
    requires w.quiet && r.writes == []
    ensures Shown(w, Print, r) == r.out + [r.patt]
    ensures Shown(w, InsertText(text), r) == r.out + [text]
    ensures Shown(w, LineNumber, r) == r.out + [Decimal(r.lineno)]
  {
    ShownIs(w, Print, r);
    ShownIs(w, InsertText(text), r);
    ShownIs(w, LineNumber, r);
    Nothing(r.out + [r.patt]);
    Nothing(r.out + [text]);
    Nothing(r.out + [Decimal(r.lineno)]);
  }

  /** `P` prints the pattern space up to its first newline, if there is one. */
  lemma FirstPrinted(w: World, r: Regs, x: string, rest: string)
    requires w.quiet && r.writes == [] && '\n' !in x
    requires r.patt == x + rest && (rest == "" || rest[0] == '\n')
    ensures Shown(w, PrintFirst, r) == r.out + [x]
  {
    ShownIs(w, PrintFirst, r);
    FirstLine(x, rest);
    assert (x + rest)[..|x|] == x;
    Nothing(r.out + [x]);
  }

  lemma {:induction false} FirstLine(x: string, rest: string)
    requires '\n' !in x && (rest == "" || rest[0] == '\n')
    ensures FirstNewline(x + rest) == |x|
  {
    if x == "" {
      assert x + rest == rest;
    } else {
      FirstLine(x[1..], rest);
      assert (x + rest)[1..] == x[1..] + rest;
    }
  }

  /** Text for after the line, and a file that is read, are printed at the end. */
  lemma PrintedLater(w: World, r: Regs, text: string, fid: nat)
    requires r.writes == []
    ensures var line := if w.quiet then [] else [r.patt];
            && Shown(w, AppendText(text), r) == r.out + line + [text]
            && Shown(w, ReadFile(fid), r) == r.out + line + w.file(fid)
  {
    ShownIs(w, AppendText(text), r);
    ShownIs(w, ReadFile(fid), r);
    Nothing([text]);
    Nothing(w.file(fid));
  }

  /** Without `-n` the line itself comes after the text of `i`; `p` prints it twice. */
  lemma PrintedWithLine(w: World, r: Regs, text: string)
    requires !w.quiet && r.writes == []
    ensures Shown(w, Print, r) == r.out + [r.patt, r.patt]
    ensures Shown(w, InsertText(text), r) == r.out + [text, r.patt]
  {
    ShownIs(w, Print, r);
    ShownIs(w, InsertText(text), r);
    Two(r.out, r.patt, r.patt);
    Two(r.out, text, r.patt);
    Nothing(r.out + [r.patt, r.patt]);
    Nothing(r.out + [text, r.patt]);
  }

  /** `g` and `x` print the hold space in place of the line, `G` prints it after, and
      `h` and `H` leave the line as it was. */
  lemma PrintedFromHold(w: World, r: Regs)
    requires !w.quiet && r.writes == []
    ensures Shown(w, GetHold, r) == Shown(w, Exchange, r) == r.out + [r.hold]
    ensures Shown(w, AddHold, r) == r.out + [r.patt + "\n" + r.hold]
    ensures Shown(w, PutHold, r) == Shown(w, AddToHold, r) == r.out + [r.patt]
  {
    Nothing(r.out + [r.hold]);
    Nothing(r.out + [r.patt + "\n" + r.hold]);
    Nothing(r.out + [r.patt]);
  }

  /** What is kept for later lines: exchanging twice changes nothing, and a line put
      into the hold space can be got back. */
  lemma Kept(w: World, r: Regs)
    ensures DoEdit(w, PutHold, r).hold == r.patt && DoEdit(w, AddToHold, r).hold == r.hold + "\n" + r.patt
    ensures DoEdit(w, Exchange, DoEdit(w, Exchange, r)) == r && DoEdit(w, Exchange, r).hold == r.patt
    ensures DoEdit(w, GetHold, DoEdit(w, PutHold, r).(patt := "")).patt == r.patt
  {
  }

  /** `q` prints the line like the end of the script, and nothing is read or printed
      any more; `n` does the same and goes on with the next line, `N` with both. */
  lemma QuitAndNext(w: World, r: Regs)
    requires r.status == Going && r.writes == [] && r.input != []
    ensures var q := DoEdit(w, Quit, r);
            q.status == Halted && q.input == r.input && q.out == r.out + if w.quiet then [] else [r.patt]
    ensures var q := DoEdit(w, NextLine, r);
            && q.status == Going && q.patt == r.input[0] && q.input == r.input[1..] && q.lineno == r.lineno + 1
            && q.out == r.out + if w.quiet then [] else [r.patt]
    ensures var q := DoEdit(w, AddLine, r);
            && q.status == Going && q.patt == r.patt + "\n" + r.input[0] && q.input == r.input[1..]
            && q.lineno == r.lineno + 1 && q.out == r.out
  {
    assert r.out + [] == r.out;
    assert r.out + [r.patt] + [] == r.out + [r.patt];
  }

  /** At the end of the input `n` prints the line and stops, `N` stops without. */
  lemma NoNextLine(w: World, r: Regs)
    requires r.writes == [] && r.input == []
    ensures var q := DoEdit(w, NextLine, r);
            q.status == Halted && q.out == r.out + if w.quiet then [] else [r.patt]
    ensures var q := DoEdit(w, AddLine, r);
            q.status == Halted && q.out == r.out
  {
    Nothing(r.out);
    Nothing(r.out + [r.patt]);
  }

  /** `D` begins a new cycle on what follows the first newline, without reading a line
      and without printing. */
  lemma FirstDeleted(w: World, c: Cmd, s: State, x: string, rest: string)
    requires |s.inMatch| > 0 && Alive(s) && c.op == DeleteFirst
    requires c.range == Range(Every, Ignore) && !c.negate && '\n' !in x && s.r.patt == x + ("\n" + rest)
    ensures Cycle(EnvOf(w), Cons(Leaf(c), Nil), s).r == s.r.(patt := rest)
  {
    FirstLine(x, "\n" + rest);
    assert (x + ("\n" + rest))[|x| + 1..] == rest;
    OneMeans(EnvOf(w), c, 0, s);
    Unconditional(w, c, s.inMatch[0], s.r);
    assert Mean(EnvOf(w), Cons(Leaf(c), Nil), 0, s).1.r == s.r.(patt := rest);
  }

  /** A command without addresses, alone in a block. */
  function OneBlock(range: Range, negate: bool, op: Op): (i: Item)
    ensures Size(i) == 3
  {
    var body := Cons(Leaf(Cmd(Range(Every, Ignore), false, op)), Nil);
    assert Sizes(body) == 1;
    Block(range, negate, body)
  }

  /** What a command does once it is in its range. */
  lemma InItsRange(w: World, c: Cmd, k: nat, s: State)
    requires k < |s.inMatch| && c.range == Range(Every, Ignore) && !c.negate && Alive(s)
    ensures var (b, t) := InRange(EnvOf(w), c, k, s);
            b && t.r == s.r && t.inMatch == s.inMatch
  {
    Unconditional(w, c, s.inMatch[k], s.r);
  }

  lemma OneSkipped(env: Env, c: Cmd, k: nat, s: State)
    requires k < |s.inMatch| && Alive(s)
    ensures Skip(env, Cons(Leaf(c), Nil), k, s) == InRange(env, c, k, s).1
  {
    assert SkipItem(env, Leaf(c), k, s) == InRange(env, c, k, s).1;
  }

  lemma BlockMeans(env: Env, range: Range, negate: bool, op: Op, s: State)
    requires |s.inMatch| >= 3 && Alive(s)
    ensures var all := Cmd(Range(Every, Ignore), false, op);
            var (b, s1) := InRange(env, Cmd(range, negate, Open(2)), 0, s);
            MeanItem(env, OneBlock(range, negate, op), 0, s) ==
            if !Alive(s1) then (Stop, s1) else if b then MeanLeaf(env, all, 1, s1)
            else (FlowOf(InRange(env, all, 1, s1).1), InRange(env, all, 1, s1).1)
  {
    var all := Cmd(Range(Every, Ignore), false, op);
    var (b, s1) := InRange(env, Cmd(range, negate, Open(2)), 0, s);
    OneMeans(env, all, 1, s1);
    if Alive(s1) { OneSkipped(env, all, 1, s1); }
    assert OneBlock(range, negate, op) == Block(range, negate, Cons(Leaf(all), Nil));
  }

  /** The state of its own range matters to no command but `c`. */
  lemma SameEffect(env: Env, c: Cmd, k: nat, s: State, d: Cmd, j: nat, t: State)
    requires k < |s.inMatch| && j < |t.inMatch| && c.op == d.op && !c.op.Change?
    requires InRange(env, c, k, s).0 == InRange(env, d, j, t).0
    requires InRange(env, c, k, s).1.r == InRange(env, d, j, t).1.r
    ensures MeanLeaf(env, c, k, s).0 == MeanLeaf(env, d, j, t).0
    ensures MeanLeaf(env, c, k, s).1.r == MeanLeaf(env, d, j, t).1.r
  {
  }

  /** A command in a block does what it does with the addresses of the block itself. */
  lemma BlockIsRange(w: World, range: Range, negate: bool, op: Op, s: State)
    requires |s.inMatch| >= 3 && Alive(s) && !op.Change?
    ensures var (f, t) := MeanItem(EnvOf(w), OneBlock(range, negate, op), 0, s);
            var (g, u) := MeanLeaf(EnvOf(w), Cmd(range, negate, op), 0, s);
            t.r == u.r && f == g
  {
    var all := Cmd(Range(Every, Ignore), false, op);
    var (b, s1) := InRange(EnvOf(w), Cmd(range, negate, Open(2)), 0, s);
    BlockMeans(EnvOf(w), range, negate, op, s);
    SameConsult(w, range, negate, Open(2), op, s.inMatch[0], s.r);
    if Alive(s1) {
      InItsRange(w, all, 1, s1);
      if b { SameEffect(EnvOf(w), all, 1, s1, Cmd(range, negate, op), 0, s); }
    }
  }

  lemma SameConsult(w: World, range: Range, negate: bool, op: Op, other: Op, bit: bool, r: Regs)
    ensures Consult(w, Cmd(range, negate, op), bit, r) == Consult(w, Cmd(range, negate, other), bit, r)
  {
  }

  /** The empty script prints its input line by line, or nothing with `-n`. */
  lemma {:induction false} EmptyScriptCopies(w: World, s: State, m: nat)
    requires Alive(s) && s.r.writes == [] && m <= |s.r.input| + 1
    ensures Cycles(EnvOf(w), Nil, s, m).r.out
         == s.r.out + if w.quiet then [] else ([s.r.patt] + s.r.input)[..m]
    decreases m
  {
    if m == 0 {
      assert s.r.out + [] == s.r.out;
    } else {
      var s1 := Cycle(EnvOf(w), Nil, s);
      var lines := [s.r.patt] + s.r.input;
      if s.r.input != [] {
        assert lines[1..] == s.r.input == [s.r.input[0]] + s.r.input[1..];
        EmptyScriptCopies(w, s1, m - 1);
        if !w.quiet { FirstOf(s.r.out, lines, m); }
      } else {
        assert lines[..1] == [s.r.patt] && Cycles(EnvOf(w), Nil, s1, 0) == s1;
      }
      assert s.r.out + [] == s.r.out;
    }
  }

  lemma FirstOf(out: seq<string>, lines: seq<string>, m: nat)
    requires 1 <= m <= |lines|
    ensures out + [lines[0]] + [] + lines[1..][..m - 1] == out + lines[..m]
  {
    assert lines[..m] == [lines[0]] + lines[1..][..m - 1];
  }

  function ValueOf(s: string): nat
    requires forall i :: 0 <= i < |s| ==> '0' <= s[i] <= '9'
  {
    if s == "" then 0 else 10 * ValueOf(s[..|s| - 1]) + (s[|s| - 1] as nat - '0' as nat)
  }

  /** `=` prints the number of the line in decimal, without leading zeros. */
  lemma {:induction false} DecimalIs(n: nat)
    ensures var s := Decimal(n);
            && s != "" && (forall i :: 0 <= i < |s| ==> '0' <= s[i] <= '9') && ValueOf(s) == n
            && (n > 0 ==> s[0] != '0')
  {
    var digit := "0123456789"[n % 10];
    assert digit as nat - '0' as nat == n % 10;
    if n < 10 {
      assert [digit][..0] == "";
    } else {
      DecimalIs(n / 10);
      var more := Decimal(n / 10);
      assert (more + [digit])[..|more|] == more && (more + [digit])[|more|] == digit;
    }
  }

  // ------------------------------------------------------------------- t

  function After(w: World, es: seq<Edit>, r: Regs): Regs
    decreases |es|
  {
    if es == [] then r else After(w, es[1..], DoEdit(w, es[0], r))
  }

  /** An `s` among them has replaced something. */
  predicate SomeReplaced(w: World, es: seq<Edit>, r: Regs)
    decreases |es|
  {
    es != [] && (Replaces(w, es[0], r) || SomeReplaced(w, es[1..], DoEdit(w, es[0], r)))
  }

  predicate Replaces(w: World, e: Edit, r: Regs) {
    match e
    case Substitute(sid) =>
      var o := w.substitute(sid, r.patt, r.lastre);
      o.Some? && o.value.replaced
    case _ => false
  }

  /** Since the last line was read. */
  lemma {:induction false} ReplacedSince(w: World, es: seq<Edit>, r: Regs)
    requires NextLine !in es && AddLine !in es
    ensures After(w, es, r).replaced <==> r.replaced || SomeReplaced(w, es, r)
    decreases |es|
  {
    if es != [] {
      assert es[0] in es;
      ReplacedByOne(w, es[0], r);
      ReplacedSince(w, es[1..], DoEdit(w, es[0], r));
    }
  }

  lemma ReplacedByOne(w: World, e: Edit, r: Regs)
    requires e != NextLine && e != AddLine
    ensures DoEdit(w, e, r).replaced <==> r.replaced || Replaces(w, e, r)
  {
  }

  /** After a line has been read, and after some edits, `t` jumps if and only if one of
      these replaced something; then it forgets that. */
  lemma TestJumps(w: World, prog: seq<Cmd>, pc: nat, r: Regs, es: seq<Edit>, s: State)
    requires |s.inMatch| == |prog| && pc < |prog| && JumpsInside(prog) && r.input != []
    requires prog[pc].op.Test? && prog[pc].range == Range(Every, Ignore) && !prog[pc].negate && prog[pc].op.jump != pc
    requires NextLine !in es && AddLine !in es && s.r == After(w, es, NewLine(r)) && Alive(s)
    ensures var (p, t) := Step(EnvOf(w), prog, pc, s);
            && (p == prog[pc].op.jump + 1 <==> SomeReplaced(w, es, NewLine(r)))
            && (SomeReplaced(w, es, NewLine(r)) ==> !t.r.replaced)
            && (!SomeReplaced(w, es, NewLine(r)) ==> p == pc + 1 && t.r == s.r)
  {
    ReplacedSince(w, es, NewLine(r));
    Unconditional(w, prog[pc], s.inMatch[pc], s.r);
  }

  lemma Unconditional(w: World, c: Cmd, bit: bool, r: Regs)
    requires c.range == Range(Every, Ignore) && !c.negate && r.status == Going
    ensures Consult(w, c, bit, r) == (true, bit, r)
  {
  }
}

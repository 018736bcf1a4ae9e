/** sed as it runs: vectors filled while the script is read, jumps inserted at the
    end, and a machine whose registers and range bits are updated in place. */
module SedProgram {
  import opened Basics
  import opened Stacks
  import opened SedMachine
  import opened SedNested
  import opened SedCompile

  // ---------------------------------------------------------------- labels

  /** The first label of that name, or |src|. */
  function FirstLabel(src: seq<Src>, name: string, i: nat): (k: nat)
    requires i <= |src|
    ensures i <= k <= |src| && (k < |src| ==> src[k] == SLabel(name))
    ensures forall j :: i <= j < k ==> src[j] != SLabel(name)
    decreases |src| - i
  {
    if i == |src| then i else if src[i] == SLabel(name) then i else FirstLabel(src, name, i + 1)
  }

  /** Where a branch goes: to the first label of its name, or without a name to
      the command before the last one; None if there is no such label. */
  function Target(src: seq<Src>, dest: Option<string>): (t: Option<int>)
    ensures t.Some? && src != [] ==> 0 <= t.value < |src|
  {
    match dest
    case None => Some(|src| - 1)
    case Some(name) => var k := FirstLabel(src, name, 0); if k < |src| then Some(k) else None
  }

  predicate BranchOk(src: seq<Src>, i: nat)
    requires i < |src|
  {
    src[i].SBranch? ==> Target(src, src[i].dest).Some?
  }

  /** Command number i with its jump inserted. */
  function Resolved(src: seq<Src>, c: Cmd, i: nat): Cmd
    requires i < |src| && BranchOk(src, i)
  {
    if !src[i].SBranch? then c
    else
      var t := Target(src, src[i].dest).value;
      c.(op := if src[i].test then Test(t) else Branch(t))
  }

  /** The offsets of closed blocks are in place. */
  ghost predicate OpensOk(c: Comp, src: seq<Src>) {
    && |c.prog| == |src|
    && (forall i :: 0 <= i < |src| ==>
          (c.prog[i].op.Open? <==> src[i].SOpen?) &&
            (c.prog[i].op.Close? <==> src[i] == SClose || (src[i].SPlain? && src[i].c.op.Close?)))
    && (forall i :: 0 <= i < |src| && src[i].SOpen? && !Contains(c.braces, i) ==>
          i < c.prog[i].op.offset < |src| && src[c.prog[i].op.offset] == SClose)
    && (forall i :: 0 <= i < |src| && !src[i].SOpen? ==> c.prog[i] == Stored(src[i]))
    && AllOpen(c.braces, src)
  }

  ghost predicate AllOpen(s: Stack<nat>, src: seq<Src>) {
    match s
    case Empty => true
    case Push(b, rest) => b < |src| && src[b].SOpen? && AllOpen(rest, src)
  }

  lemma {:induction false} AllOpenMore(s: Stack<nat>, src: seq<Src>, x: Src)
    requires AllOpen(s, src)
    ensures AllOpen(s, src + [x])
    decreases s
  {
    if s.Push? { AllOpenMore(s.rest, src, x); }
  }

  /** What a script may contain: plain commands do not nest, branch or end it. */
  predicate Readable(x: Src) { x.SPlain? ==> LeafOk(x.c) }

  lemma OpensOkStep(c: Comp, src: seq<Src>, x: Src)
    requires OpensOk(c, src) && CompileOne(c, x).Ok? && Readable(x)
    ensures OpensOk(CompileOne(c, x).value, src + [x])
  {
    AllOpenMore(c.braces, src, x);
    var d := CompileOne(c, x).value;
    var more := src + [x];
    forall i | 0 <= i < |more| && more[i].SOpen? && !Contains(d.braces, i)
      ensures i < d.prog[i].op.offset < |more| && more[d.prog[i].op.offset] == SClose
    {
      if x == SClose && i == c.braces.top {
      } else {
        assert i < |src| ==> !Contains(c.braces, i);
      }
    }
  }

  /** A complete program: everything the machine needs to stay inside it. */
  lemma ResolvedInside(c: Comp, src: seq<Src>, prog: seq<Cmd>)
    requires OpensOk(c, src) && c.braces == Empty && forall i :: 0 <= i < |src| ==> Readable(src[i])
    requires forall i :: 0 <= i < |src| ==> BranchOk(src, i)
    requires |prog| == |src| + 1 && prog[|src|] == LAST
    requires forall i :: 0 <= i < |src| ==> prog[i] == Resolved(src, c.prog[i], i)
    ensures JumpsInside(prog) && KeepsKinds(src, prog)
  {
    forall i: nat | i < |prog| ensures JumpOk(prog, i) && (i < |src| ==> SameKind(src[i], prog[i])) {
      if i < |src| {
        assert BranchOk(src, i) && Readable(src[i]);
        assert prog[i] == Resolved(src, c.prog[i], i);
        if src[i].SOpen? {
          var off := c.prog[i].op.offset;
          assert prog[off] == Resolved(src, c.prog[off], off);
        } else {
          assert c.prog[i] == Stored(src[i]);
        }
      }
    }
  }

  predicate Addressed(x: Src) { !x.SClose? && !x.SLabel? }

  predicate SameKind(x: Src, c: Cmd) {
    && (Ranged(c) <==> Addressed(x))
    && (c.op.Branch? || c.op.Test? <==> x.SBranch?)
  }

  ghost predicate KeepsKinds(src: seq<Src>, prog: seq<Cmd>) {
    |prog| == |src| + 1 && forall i :: 0 <= i < |src| ==> SameKind(src[i], prog[i])
  }

  /** `compile` and `insert_labels`: a diagnostic, or a program whose braces have
      the offsets of the nested blocks and whose branches go to the first label
      of their name. */
  method Build(src: seq<Src>) returns (r: Result<seq<Cmd>>)
    requires forall i :: 0 <= i < |src| ==> Readable(src[i])
    ensures Compile(src).Err? ==> r == Err(Compile(src).error)
    ensures Compile(src).Ok? ==> (r.Ok? <==> forall i :: 0 <= i < |src| ==> BranchOk(src, i))
    ensures Compile(src).Ok? && r.Err? ==> r == Err(BadLabel)
    ensures r.Ok? ==> Compile(src).Ok? && Linked(src, Compile(src).value, r.value)
  {
    var err, prog, braces, branches := ReadScript(src);
    if err.Some? { return Err(err.value); }
    if |braces| > 0 { return Err(ExtraOpen); }
    ghost var c := Comp(prog, Empty);
    prog := prog + [LAST];
    r := InsertLabels(src, prog, branches);
    if r.Ok? { ResolvedInside(c, src, r.value); }
  }

  /** The program with its jumps: nothing else differs, and the machine will stay
      inside it. */
  ghost predicate Linked(src: seq<Src>, program: seq<Cmd>, prog: seq<Cmd>) {
    && JumpsInside(prog) && KeepsKinds(src, prog) && |prog| == |src| + 1 == |program| && prog[|src|] == LAST
    && forall i :: 0 <= i < |src| ==> BranchOk(src, i) && prog[i] == Resolved(src, program[i], i)
  }

  /** From commands to runs: the program built from a script without branches and
      labels runs as the nested script means, for any number of cycles. */
  lemma BuiltRun(env: Env, src: seq<Src>, prog: seq<Cmd>, s: State, m: nat) returns (p: Script, n: nat)
    requires forall i :: 0 <= i < |src| ==> Simple(src[i])
    requires Compile(src).Ok? && Linked(src, Compile(src).value, prog) && |s.inMatch| == |prog|
    ensures ScriptOk(p) && Tokens(p) == src
    ensures var (k, t) := Run(env, prog, 0, s, n);
            t == Cycles(env, p, s, m) && (Alive(t) ==> k == 0)
  {
    CompilesIffNested(src);
    p :| ScriptOk(p) && Tokens(p) == src;
    forall i | 0 <= i < |prog| ensures prog[i] == Program(p)[i] {
      if i < |src| { assert BranchOk(src, i) && Simple(src[i]); }
    }
    assert prog == Program(p);
    n := FlatRun(env, p, s, m);
  }

  /** Which branches of a script keep every range in step: those to a later label,
      and those without a label unless some other command with addresses ends the
      script. */
  predicate InStep(src: seq<Src>, i: nat)
    requires i < |src|
  {
    src[i].SBranch? ==>
      match src[i].dest
      case None => i == |src| - 1 || !Addressed(src[|src| - 1])
      case Some(name) => FirstLabel(src, name, 0) > i
  }

  lemma InStepIsTidy(src: seq<Src>, program: seq<Cmd>, prog: seq<Cmd>, i: nat)
    requires Linked(src, program, prog) && i < |src| && src[i].SBranch?
    ensures (prog[i].op.Branch? || prog[i].op.Test?) && 0 <= prog[i].op.jump < |prog|
    ensures Tidy(prog, i, prog[i].op.jump) <==> InStep(src, i)
  {
    assert BranchOk(src, i) && prog[i] == Resolved(src, program[i], i);
    var jump := prog[i].op.jump;
    assert SameKind(src[jump], prog[jump]) && SameKind(src[i], prog[i]);
  }

  /** A program built from a script is tidy if and only if each branch of the
      script is in step. */
  lemma TidyIffInStep(src: seq<Src>, program: seq<Cmd>, prog: seq<Cmd>)
    requires Linked(src, program, prog)
    ensures TidyProgram(prog) <==> forall i :: 0 <= i < |src| ==> InStep(src, i)
  {
    forall i | 0 <= i < |src|
      ensures src[i].SBranch? <==> prog[i].op.Branch? || prog[i].op.Test?
      ensures src[i].SBranch? ==> 0 <= prog[i].op.jump < |prog| && (Tidy(prog, i, prog[i].op.jump) <==> InStep(src, i))
    {
      assert SameKind(src[i], prog[i]);
      if src[i].SBranch? { InStepIsTidy(src, program, prog, i); }
    }
  }

  const FIRST := Range(LineNo(1), Ignore)
  const PRINT_1_3 := Cmd(Range(LineNo(1), LineNo(3)), false, Apply(Print))

  /** The script `1b;1,3p`, and `1d;1,3p` beside it. */
  const B_SCRIPT := [SBranch(FIRST, false, false, None), SPlain(PRINT_1_3)]
  const D_SCRIPT := [SPlain(Cmd(FIRST, false, Delete)), SPlain(PRINT_1_3)]

  lemma CompileTwo(x: Src, y: Src)
    requires Addressed(x) && Addressed(y) && !x.SOpen? && !y.SOpen?
    ensures Compile([x, y]) == Ok([Stored(x), Stored(y), LAST])
  {
    var c0 := Comp([], Empty);
    var c1 := Comp([Stored(x)], Empty);
    assert [] + [Stored(x)] == [Stored(x)];
    assert [x, y][1..] == [y] && [y][1..] == [];
    var c2 := Comp([Stored(x), Stored(y)], Empty);
    assert [Stored(x)] + [Stored(y)] == c2.prog && c2.prog + [LAST] == [Stored(x), Stored(y), LAST];
    assert CompileOne(c0, x) == Ok(c1) && CompileFrom(c0, [x, y]) == CompileFrom(c1, [y]);
    assert CompileOne(c1, y) == Ok(c2) && CompileFrom(c1, [y]) == CompileFrom(c2, []);
  }

  /** Both scripts build: `Build` fails only where one of these does. */
  lemma TwoScriptsBuild()
    ensures Compile(B_SCRIPT) == Ok([Stored(B_SCRIPT[0]), PRINT_1_3, LAST]) && BranchOk(B_SCRIPT, 0) &&
            BranchOk(B_SCRIPT, 1)
    ensures Compile(D_SCRIPT) == Ok([D_SCRIPT[0].c, PRINT_1_3, LAST]) && BranchOk(D_SCRIPT, 0) && BranchOk(D_SCRIPT, 1)
    ensures !InStep(B_SCRIPT, 0) && InStep(D_SCRIPT, 0)
  {
    CompileTwo(B_SCRIPT[0], B_SCRIPT[1]);
    CompileTwo(D_SCRIPT[0], D_SCRIPT[1]);
  }

  /** In the programs built from them, on line 1 the range of p is opened by d but
      not by b, which takes p for the end of the script. */
  lemma BranchMissesRange(w: World, s: State, b: seq<Cmd>, d: seq<Cmd>)
    requires |s.inMatch| == 3 && !s.inMatch[1] && Alive(s) && s.r.lineno == 1
    requires Compile(B_SCRIPT).Ok? && Linked(B_SCRIPT, Compile(B_SCRIPT).value, b)
    requires Compile(D_SCRIPT).Ok? && Linked(D_SCRIPT, Compile(D_SCRIPT).value, d)
    ensures |b| == |d| == 3 && JumpsInside(b) && JumpsInside(d)
    ensures !Step(EnvOf(w), b, 0, s).1.inMatch[1] && Step(EnvOf(w), d, 0, s).1.inMatch[1]
  {
    TwoScriptsBuild();
    assert BranchOk(B_SCRIPT, 0) && b[0] == Cmd(FIRST, false, Branch(1));
    assert BranchOk(D_SCRIPT, 0) && d[0] == Cmd(FIRST, false, Delete);
    assert BranchOk(D_SCRIPT, 1) && d[1] == PRINT_1_3 && d[2] == LAST;
    BranchSteps(EnvOf(w), s, b);
    DeleteSteps(w, s, d);
  }

  lemma BranchSteps(env: Env, s: State, b: seq<Cmd>)
    requires |s.inMatch| == 3 == |b| && !s.inMatch[1] && JumpsInside(b) && b[0] == Cmd(FIRST, false, Branch(1))
    ensures !Step(env, b, 0, s).1.inMatch[1]
  {
  }

  lemma DeleteSteps(w: World, s: State, d: seq<Cmd>)
    requires |s.inMatch| == 3 && Alive(s) && s.r.lineno == 1 && JumpsInside(d)
    requires d == [Cmd(FIRST, false, Delete), PRINT_1_3, LAST]
    ensures Step(EnvOf(w), d, 0, s).1.inMatch[1]
  {
  }

  /** The branches among the first n commands, each once. */
  ghost predicate Pending(src: seq<Src>, n: nat, branches: seq<nat>) {
    && n <= |src| && (forall i :: i in branches <==> 0 <= i < n && src[i].SBranch?)
    && (forall i, j :: 0 <= i < j < |branches| ==> branches[i] != branches[j])
  }

  lemma PendingNext(src: seq<Src>, n: nat, branches: seq<nat>)
    requires n < |src| && Pending(src, n, branches)
    ensures Pending(src, n + 1, if src[n].SBranch? then branches + [n] else branches)
  {
  }

  /** Reading all commands. */
  method ReadScript(src: seq<Src>) returns (err: Option<Error>, prog: seq<Cmd>, braces: seq<nat>, branches: seq<nat>)
    requires forall i :: 0 <= i < |src| ==> Readable(src[i])
    ensures err.Some? ==> CompileFrom(Comp([], Empty), src) == Err(err.value)
    ensures err.None? ==>
              && CompileFrom(Comp([], Empty), src) == Ok(Comp(prog, Of(braces))) && OpensOk(Comp(prog, Of(braces)), src)
              && Pending(src, |src|, branches)
  {
    err, prog, braces, branches := None, [], [], [];
    var n := 0;
    ReadingStart(src);
    while n < |src|
      invariant n <= |src| && Reading(src, n, prog, braces) && Pending(src, n, branches)
    {
      ReadingBrace(src, n, prog, braces);
      var ok, prog', braces' := ReadCommand(src[n], prog, braces);
      if !ok {
        ReadingStops(src, n, prog, braces);
        err := Some(ExtraClose);
        return;
      }
      ReadingOn(src, n, prog, braces, prog', braces');
      PendingNext(src, n, branches);
      prog, braces := prog', braces';
      if src[n].SBranch? { branches := branches + [n]; }
      n := n + 1;
    }
    ReadingDone(src, prog, braces);
  }

  /** n commands have been read, without an error so far. */
  ghost predicate Reading(src: seq<Src>, n: nat, prog: seq<Cmd>, braces: seq<nat>) {
    && n <= |src| && (forall i :: 0 <= i < |src| ==> Readable(src[i]))
    && OpensOk(Comp(prog, Of(braces)), src[..n])
    && CompileFrom(Comp([], Empty), src) == CompileFrom(Comp(prog, Of(braces)), src[n..])
  }

  lemma ReadingStart(src: seq<Src>)
    requires forall i :: 0 <= i < |src| ==> Readable(src[i])
    ensures Reading(src, 0, [], [])
  {
    assert src[0..] == src;
  }

  lemma ReadingBrace(src: seq<Src>, n: nat, prog: seq<Cmd>, braces: seq<nat>)
    requires Reading(src, n, prog, braces)
    ensures |braces| > 0 ==> braces[|braces| - 1] <= |prog|
  {
  }

  lemma ReadingOn(src: seq<Src>, n: nat, prog: seq<Cmd>, braces: seq<nat>, prog': seq<Cmd>, braces': seq<nat>)
    requires Reading(src, n, prog, braces) && n < |src|
    requires CompileOne(Comp(prog, Of(braces)), src[n]) == Ok(Comp(prog', Of(braces')))
    ensures Reading(src, n + 1, prog', braces')
  {
    OneMore(src, n);
    OpensOkStep(Comp(prog, Of(braces)), src[..n], src[n]);
  }

  lemma ReadingStops(src: seq<Src>, n: nat, prog: seq<Cmd>, braces: seq<nat>)
    requires Reading(src, n, prog, braces) && n < |src|
    ensures CompileOne(Comp(prog, Of(braces)), src[n]) == Err(ExtraClose) ==>
            CompileFrom(Comp([], Empty), src) == Err(ExtraClose)
  {
    OneMore(src, n);
  }

  lemma ReadingDone(src: seq<Src>, prog: seq<Cmd>, braces: seq<nat>)
    requires Reading(src, |src|, prog, braces)
    ensures CompileFrom(Comp([], Empty), src) == Ok(Comp(prog, Of(braces))) && OpensOk(Comp(prog, Of(braces)), src)
  {
    assert src[|src|..] == [] && src[..|src|] == src;
  }

  lemma OneMore(src: seq<Src>, n: nat)
    requires n < |src|
    ensures src[n..][0] == src[n] && src[n..][1..] == src[n + 1..] && src[..n + 1] == src[..n] + [src[n]]
  {
  }

  /** One command, with its brace pushed or popped. */
  method ReadCommand(x: Src, prog: seq<Cmd>, braces: seq<nat>) returns (ok: bool, prog': seq<Cmd>, braces': seq<nat>)
    requires |braces| > 0 ==> braces[|braces| - 1] <= |prog|
    ensures !ok ==> CompileOne(Comp(prog, Of(braces)), x) == Err(ExtraClose)
    ensures ok ==> CompileOne(Comp(prog, Of(braces)), x) == Ok(Comp(prog', Of(braces')))
  {
    ok, prog', braces' := true, prog + [Stored(x)], braces;
    if x.SOpen? {
      OfSnoc(braces, |prog|);
      braces' := braces + [|prog|];
    } else if x.SClose? {
      ok := |braces| > 0;
      if ok {
        var lbrace := braces[|braces| - 1];
        braces' := braces[..|braces| - 1];
        prog' := prog'[lbrace := prog'[lbrace].(op := Open(|prog|))];
      }
    }
  }

  /** `insert_labels`, from the last branch to the first. */
  method InsertLabels(src: seq<Src>, program: seq<Cmd>, pending: seq<nat>) returns (r: Result<seq<Cmd>>)
    requires |program| == |src| + 1
    requires Pending(src, |src|, pending)
    ensures r.Ok? <==> forall i :: 0 <= i < |src| ==> BranchOk(src, i)
    ensures r.Err? ==> r == Err(BadLabel)
    ensures r.Ok? ==>
              && |r.value| == |program| && r.value[|src|] == program[|src|]
              && forall i :: 0 <= i < |src| ==> r.value[i] == Resolved(src, program[i], i)
  {
    var prog, branches := program, pending;
    while |branches| > 0
      invariant branches <= pending && |prog| == |program| && prog[|src|] == program[|src|]
      invariant forall i :: 0 <= i < |src| ==>
                  if i in branches || !src[i].SBranch? then prog[i] == program[i]
                  else BranchOk(src, i) && prog[i] == Resolved(src, program[i], i)
      decreases |branches|
    {
      var from := branches[|branches| - 1];
      assert from in pending;
      var rest := branches[..|branches| - 1];
      assert forall i :: i in branches <==> i in rest || i == from;
      assert from !in rest;
      var jump := |src| - 1;
      if src[from].dest.Some? {
        jump := LookUp(src, src[from].dest.value);
        if jump == |src| {
          assert !BranchOk(src, from);
          return Err(BadLabel);
        }
      }
      prog := prog[from := prog[from].(op := if src[from].test then Test(jump) else Branch(jump))];
      branches := rest;
    }
    r := Ok(prog);
  }

  /** Its inner loop. */
  method LookUp(src: seq<Src>, name: string) returns (k: nat)
    ensures k == FirstLabel(src, name, 0)
  {
    k := 0;
    while k < |src| && src[k] != SLabel(name)
      invariant k <= |src| && FirstLabel(src, name, 0) == FirstLabel(src, name, k)
      decreases |src| - k
    {
      k := k + 1;
    }
  }

  // --------------------------------------------------------------- running

  /** The globals of the running machine. */
  class Sed {
    const world: World
    const env := EnvOf(world)
    const prog: seq<Cmd>
    var pc: int
    var r: Regs
    var inMatch: seq<bool>
    /** Which ranges have been consulted; not in the program itself. */
    ghost var seen: seq<Seen>

    ghost function S(): State
      reads this
    {
      State(r, inMatch, seen)
    }

    ghost predicate Valid()
      reads this
    {
      |inMatch| == |prog| && JumpsInside(prog) && 0 <= pc < |prog|
    }

    /** The machine at the start of a program; the first line has been read. */
    constructor (world: World, prog: seq<Cmd>, r: Regs)
      requires JumpsInside(prog)
      ensures Valid() && this.world == world && this.prog == prog && this.r == r && pc == 0
      ensures seen == [] && forall i :: 0 <= i < |prog| ==> !inMatch[i]
    {
      this.world, this.prog, this.r := world, prog, r;
      pc, seen := 0, [];
      inMatch := seq(|prog|, _ => false);
    }

    /** `match_addr`. */
    method Match(a: Addr) returns (m: bool)
      modifies this`r
      ensures (m, r) == MatchAddr(world, a, old(r))
    {
      m := false;
      match a {
        case Ignore =>
        case Every => m := true;
        case LineNo(n) => m := r.lineno == n;
        case LastLine => m := r.input == [];
        case Regex(re) =>
          r := r.(lastre := Some(re));
          m := world.matches(re, r.patt);
        case LastRegex =>
          if r.lastre.None? { r := r.(status := Fatal); } else { m := world.matches(r.lastre.value, r.patt); }
      }
    }

    /** `in_range` for command number k. */
    method InRange(k: nat) returns (b: bool)
      requires k < |inMatch| == |prog|
      modifies this`r, this`inMatch, this`seen
      ensures (b, S()) == SedMachine.InRange(env, prog[k], k, old(S()))
    {
      ghost var before := r;
      b := Consulted(k);
      if Ranged(prog[k]) { seen := seen + [Seen(k, before, b)]; }
    }

    method Consulted(k: nat) returns (b: bool)
      requires k < |inMatch| == |prog|
      modifies this`r, this`inMatch
      ensures |inMatch| == |prog| && inMatch == old(inMatch)[k := inMatch[k]]
      ensures (b, inMatch[k], r) == Consult(world, prog[k], old(inMatch[k]), old(r))
    {
      var c := prog[k];
      assert inMatch[k := inMatch[k]] == inMatch;
      b := false;
      var m := Match(c.range.beg);
      if r.status != Going { return; }
      if m {
        if NAddr(c.range) == 2 {
          inMatch := inMatch[k := !(c.range.end.LineNo? && c.range.end.n <= r.lineno)];
        }
        b := !c.negate;
        return;
      }
      if inMatch[k] {
        var e := Match(c.range.end);
        if r.status != Going { return; }
        if e {
          inMatch := inMatch[k := false];
          b := !c.negate;
          return;
        }
      }
      b := inMatch[k] != c.negate;
    }

    /** `update_ranges`. */
    method Update(beg: nat, end: int)
      requires |inMatch| == |prog| && end <= |prog|
      modifies this`r, this`inMatch, this`seen
      ensures S() == UpdateRanges(env, prog, beg, end, old(S()))
    {
      ghost var done := UpdateRanges(env, prog, beg, end, S());
      var k := beg;
      while k < end && r.status == Going
        invariant |inMatch| == |prog|
        invariant done == UpdateRanges(env, prog, k, end, S())
        decreases end - k
      {
        var b := InRange(k);
        k := k + 1;
      }
    }

    /** `new_next`. */
    method NewNext()
      requires Valid()
      modifies this
      ensures S() == SedMachine.NewNext(env, prog, old(pc), old(S())) && pc == START
    {
      r := r.(patt := "");
      Update(pc + 1, |prog|);
      if r.status == Going { r := NewLine(r); }
      pc := START;
    }

    /** `cmd_b`, and `cmd_t` when a replacement was made. */
    method Jump(jump: int)
      requires Valid() && 0 <= jump < |prog|
      modifies this
      ensures S() == SedMachine.Jump(env, prog, old(pc), jump, old(S())) && pc == jump
    {
      Update(pc + 1, if jump > pc then jump else |prog|);
      pc := jump;
    }

    /** The command at pc, and `pc++`. */
    method Turn()
      requires Valid() && Alive(S())
      modifies this
      ensures (pc, S()) == Step(env, prog, old(pc), old(S())) && Valid()
    {
      var c := prog[pc];
      PcInside(env, prog, pc, S());
      if c.op.Last? {
        r := DoWrites(AutoPrint(world.quiet, r));
        NewNext();
      } else if Ranged(c) {
        var b := InRange(pc);
        if r.status == Going { Command(c, b); }
      }
      pc := pc + 1;
    }

    /** d, D and c on a line in their range. */
    method EndCycle(c: Cmd)
      requires Valid() && Alive(S()) && c == prog[pc] && (c.op.Delete? || c.op.DeleteFirst? || c.op.Change?)
      modifies this
      ensures (pc, S()) == AfterRange(env, prog, old(pc), true, old(S()))
    {
      match c.op {
        case Delete => NewNext();
        case DeleteFirst =>
          var n := FirstNewline(r.patt);
          if n < |r.patt| {
            r := r.(patt := r.patt[n + 1..]);
            Update(pc + 1, |prog|);
            pc := START;
          } else {
            NewNext();
          }
        case Change(text) =>
          if !inMatch[pc] { r := r.(out := r.out + [text]); }
          NewNext();
        case _ => assert false;
      }
    }

    /** Its part after `in_range`. */
    method Command(c: Cmd, b: bool)
      requires Valid() && Alive(S()) && c == prog[pc] && Ranged(c)
      modifies this
      ensures (pc, S()) == AfterRange(env, prog, old(pc), b, old(S()))
    {
      assert JumpOk(prog, pc);
      match c.op {
        case Apply(e) => if b { r := DoEdit(world, e, r); }
        case Delete => if b { EndCycle(c); }
        case DeleteFirst => if b { EndCycle(c); }
        case Change(_) => if b { EndCycle(c); }
        case Open(offset) =>
          if !b {
            Update(pc + 1, offset);
            pc := offset;
          }
        case Branch(jump) => if b { Jump(jump); }
        case Test(jump) =>
          if b && r.replaced {
            Jump(jump);
            r := r.(replaced := false);
          }
        case _ => assert false;
      }
    }
  }
}

/** Nested blocks: what a script without b, t and labels means, and the proof
    that the flat program with its stored offsets does exactly that. */
module SedNested {
  import opened SedMachine

  /** A script as the user sees it. */
  datatype Item = Leaf(c: Cmd) | Block(range: Range, negate: bool, body: Script)
  datatype Script = Nil | Cons(head: Item, tail: Script)

  /** Leaves are commands that neither branch nor nest. */
  predicate LeafOk(c: Cmd) {
    c.op.Apply? || c.op.Delete? || c.op.DeleteFirst? || c.op.Change?
  }

  predicate ItemOk(i: Item) {
    match i
    case Leaf(c) => LeafOk(c)
    case Block(_, _, body) => ScriptOk(body)
  }

  predicate ScriptOk(s: Script) {
    match s
    case Nil => true
    case Cons(i, rest) => ItemOk(i) && ScriptOk(rest)
  }

  // ------------------------------------------------------------- flattening

  const CLOSE := Cmd(Range(Every, Ignore), false, Close)
  const LAST := Cmd(Range(Ignore, Ignore), false, Last)

  /** The commands of an item whose first one has number k. */
  function FlatItem(i: Item, k: nat): (p: seq<Cmd>)
    ensures |p| == Size(i)
    decreases i
  {
    match i
    case Leaf(c) => [c]
    case Block(range, negate, body) =>
      [Cmd(range, negate, Open(k + 1 + Sizes(body)))] + Flat(body, k + 1) + [CLOSE]
  }

  function Flat(s: Script, k: nat): (p: seq<Cmd>)
    ensures |p| == Sizes(s)
    decreases s
  {
    match s
    case Nil => []
    case Cons(i, rest) => FlatItem(i, k) + Flat(rest, k + Size(i))
  }

  function Size(i: Item): nat
    decreases i
  {
    match i
    case Leaf(_) => 1
    case Block(_, _, body) => 2 + Sizes(body)
  }

  function Sizes(s: Script): nat
    decreases s
  {
    match s
    case Nil => 0
    case Cons(i, rest) => Size(i) + Sizes(rest)
  }

  /** The program for a script: `cmd_last` stands at the end. */
  function Program(s: Script): seq<Cmd> { Flat(s, 0) + [LAST] }

  // ---------------------------------------------------------------- meaning

  /** How running part of a script ends: go on with the next command, start a
      new cycle on a new line or on the pattern space that is left, or stop. */
  datatype Flow = Go | NewCycle(read: bool) | Stop

  function FlowOf(s: State): Flow { if Alive(s) then Go else Stop }

  /** Consults the range of every command of a part that is not run. */
  function SkipItem(env: Env, i: Item, k: nat, s: State): (q: State)
    requires k + Size(i) <= |s.inMatch|
    ensures |q.inMatch| == |s.inMatch|
    decreases i
  {
    if !Alive(s) then s
    else
      match i
      case Leaf(c) => InRange(env, c, k, s).1
      case Block(range, negate, body) =>
        Skip(env, body, k + 1, InRange(env, Cmd(range, negate, Open(k + 1 + Sizes(body))), k, s).1)
  }

  function Skip(env: Env, p: Script, k: nat, s: State): (q: State)
    requires k + Sizes(p) <= |s.inMatch|
    ensures |q.inMatch| == |s.inMatch|
    decreases p
  {
    match p
    case Nil => s
    case Cons(i, rest) => Skip(env, rest, k + Size(i), SkipItem(env, i, k, s))
  }

  function MeanLeaf(env: Env, c: Cmd, k: nat, s: State): (q: (Flow, State))
    requires k < |s.inMatch|
    ensures |q.1.inMatch| == |s.inMatch|
  {
    var (b, s1) := InRange(env, c, k, s);
    if !Alive(s1) || !b then (FlowOf(s1), s1)
    else
      match c.op
      case Apply(e) => var s2 := s1.(r := env.edit(e, s1.r)); (FlowOf(s2), s2)
      case Delete => (NewCycle(true), s1.(r := s1.r.(patt := "")))
      case DeleteFirst =>
        var n := FirstNewline(s1.r.patt);
        if n < |s1.r.patt| then (NewCycle(false), s1.(r := s1.r.(patt := s1.r.patt[n + 1..])))
        else (NewCycle(true), s1.(r := s1.r.(patt := "")))
      case Change(text) =>
        (NewCycle(true), s1.(r := s1.r.(patt := "", out := if !s1.inMatch[k] then s1.r.out + [text] else s1.r.out)))
      case _ => (Go, s1)
  }

  /** A block runs its body when its addresses match; otherwise the body is only
      skipped. */
  function MeanItem(env: Env, i: Item, k: nat, s: State): (q: (Flow, State))
    requires k + Size(i) <= |s.inMatch|
    ensures |q.1.inMatch| == |s.inMatch|
    decreases i, 0
  {
    match i
    case Leaf(c) => MeanLeaf(env, c, k, s)
    case Block(range, negate, body) =>
      var (b, s1) := InRange(env, Cmd(range, negate, Open(k + 1 + Sizes(body))), k, s);
      if !Alive(s1) then (Stop, s1)
      else if b then Mean(env, body, k + 1, s1)
      else var s2 := Skip(env, body, k + 1, s1); (FlowOf(s2), s2)
  }

  /** A list of commands runs in order; when one of them ends the cycle the rest
      is skipped. */
  function Mean(env: Env, p: Script, k: nat, s: State): (q: (Flow, State))
    requires k + Sizes(p) <= |s.inMatch|
    ensures |q.1.inMatch| == |s.inMatch|
    decreases p, 0
  {
    match p
    case Nil => (Go, s)
    case Cons(i, rest) => Then(env, rest, k + Size(i), MeanItem(env, i, k, s))
  }

  /** What follows a command that ended in q. */
  function Then(env: Env, rest: Script, k: nat, q: (Flow, State)): (q': (Flow, State))
    requires k + Sizes(rest) <= |q.1.inMatch|
    ensures |q'.1.inMatch| == |q.1.inMatch|
    decreases rest, 1
  {
    match q.0
    case Go => Mean(env, rest, k, q.1)
    case NewCycle(_) => (q.0, Skip(env, rest, k, q.1))
    case Stop => q
  }

  /** A whole cycle: the script, the automatic print unless it was cut short, and
      the next line unless the pattern space is kept. */
  function Cycle(env: Env, p: Script, s: State): (q: State)
    requires Sizes(p) <= |s.inMatch|
    ensures |q.inMatch| == |s.inMatch|
  {
    var (f, s1) := Mean(env, p, 0, s);
    match f
    case Go => s1.(r := NewLine(DoWrites(AutoPrint(env.quiet, s1.r)).(patt := "")))
    case NewCycle(read) => if read && Alive(s1) then s1.(r := NewLine(s1.r)) else s1
    case Stop => s1
  }

  // ----------------------------------------------------------- equivalence

  /** The commands of p stand in the program from k on. */
  ghost predicate Placed(prog: seq<Cmd>, p: Script, k: nat): (b: bool)
    ensures b ==> k + Sizes(p) < |prog|
    decreases p
  {
    match p
    case Nil => k < |prog|
    case Cons(i, rest) => PlacedItem(prog, i, k) && Placed(prog, rest, k + Size(i))
  }

  ghost predicate PlacedItem(prog: seq<Cmd>, i: Item, k: nat)
    decreases i
  {
    k + Size(i) < |prog| &&
    match i
    case Leaf(c) => prog[k] == c
    case Block(range, negate, body) =>
      && prog[k] == Cmd(range, negate, Open(k + 1 + Sizes(body)))
      && Placed(prog, body, k + 1) && prog[k + 1 + Sizes(body)] == CLOSE
  }

  /** So do those of the flat form, wherever it was put. */
  lemma {:induction false} FlatPlaced(prog: seq<Cmd>, p: Script, k: nat)
    requires k + Sizes(p) < |prog| && prog[k..k + Sizes(p)] == Flat(p, k)
    ensures Placed(prog, p, k)
    decreases p
  {
    if p.Cons? {
      Parts(prog, k, FlatItem(p.head, k), Flat(p.tail, k + Size(p.head)));
      FlatItemPlaced(prog, p.head, k);
      FlatPlaced(prog, p.tail, k + Size(p.head));
    }
  }

  lemma {:induction false} FlatItemPlaced(prog: seq<Cmd>, i: Item, k: nat)
    requires k + Size(i) < |prog| && prog[k..k + Size(i)] == FlatItem(i, k)
    ensures PlacedItem(prog, i, k)
    decreases i
  {
    match i
    case Leaf(c) => assert prog[k] == prog[k..k + 1][0];
    case Block(range, negate, body) =>
      Braced(prog, k, Cmd(range, negate, Open(k + 1 + Sizes(body))), Flat(body, k + 1));
      FlatPlaced(prog, body, k + 1);
  }

  lemma Braced(prog: seq<Cmd>, k: nat, open: Cmd, body: seq<Cmd>)
    requires k + |body| + 2 <= |prog| && prog[k..k + |body| + 2] == [open] + body + [CLOSE]
    ensures prog[k] == open && prog[k + 1..k + 1 + |body|] == body && prog[k + 1 + |body|] == CLOSE
  {
    Parts(prog, k, [open] + body, [CLOSE]);
    Parts(prog, k, [open], body);
    assert prog[k] == prog[k..k + 1][0] && prog[k + 1 + |body|] == prog[k + 1 + |body|..k + 2 + |body|][0];
  }

  lemma Parts(prog: seq<Cmd>, k: nat, a: seq<Cmd>, b: seq<Cmd>)
    requires k + |a| + |b| <= |prog| && prog[k..k + |a| + |b|] == a + b
    ensures prog[k..k + |a|] == a && prog[k + |a|..k + |a| + |b|] == b
  {
    var all := prog[k..k + |a| + |b|];
    assert prog[k..k + |a|] == all[..|a|] && prog[k + |a|..k + |a| + |b|] == all[|a|..];
  }

  ghost predicate NoBranch(prog: seq<Cmd>, j: nat)
    requires j < |prog|
  {
    JumpOk(prog, j) && !prog[j].op.Branch? && !prog[j].op.Test?
  }

  lemma {:induction false} PlacedJumps(prog: seq<Cmd>, p: Script, k: nat)
    requires Placed(prog, p, k) && ScriptOk(p)
    ensures forall j :: k <= j < k + Sizes(p) ==> NoBranch(prog, j)
    decreases p
  {
    if p.Cons? {
      PlacedItemJumps(prog, p.head, k);
      PlacedJumps(prog, p.tail, k + Size(p.head));
    }
  }

  lemma {:induction false} PlacedItemJumps(prog: seq<Cmd>, i: Item, k: nat)
    requires PlacedItem(prog, i, k) && ItemOk(i)
    ensures forall j :: k <= j < k + Size(i) ==> NoBranch(prog, j)
    decreases i
  {
    match i
    case Leaf(_) =>
    case Block(_, _, body) =>
      PlacedJumps(prog, body, k + 1);
  }

  lemma ProgramOk(p: Script)
    requires ScriptOk(p)
    ensures Placed(Program(p), p, 0) && JumpsInside(Program(p)) && Program(p)[Sizes(p)] == LAST
  {
    var prog := Program(p);
    assert prog[0..Sizes(p)] == Flat(p, 0);
    FlatPlaced(prog, p, 0);
    PlacedJumps(prog, p, 0);
    forall i: nat | i < |prog| ensures JumpOk(prog, i) {
      if i < Sizes(p) { assert NoBranch(prog, i); }
    }
  }

  // skipping

  lemma ConsultClose(env: Env, k: nat, s: State)
    requires k < |s.inMatch|
    ensures InRange(env, CLOSE, k, s).1 == s && InRange(env, LAST, k, s).1 == s
  {
    assert Unaddressed(CLOSE) && Unaddressed(LAST);
    assert env.consult(CLOSE, s.inMatch[k], s.r).1 == s.inMatch[k] == env.consult(LAST, s.inMatch[k], s.r).1;
    assert s.inMatch[k := s.inMatch[k]] == s.inMatch;
  }

  lemma {:induction false} UpdateSplit(env: Env, prog: seq<Cmd>, a: nat, b: nat, c: nat, s: State)
    requires |s.inMatch| == |prog| && a <= b <= c <= |prog|
    ensures UpdateRanges(env, prog, a, c, s) == UpdateRanges(env, prog, b, c, UpdateRanges(env, prog, a, b, s))
    decreases b - a
  {
    if a < b && Alive(s) {
      UpdateSplit(env, prog, a + 1, b, c, InRange(env, prog[a], a, s).1);
    }
  }

  lemma UpdateOne(env: Env, prog: seq<Cmd>, a: nat, s: State)
    requires |s.inMatch| == |prog| && a < |prog|
    ensures UpdateRanges(env, prog, a, a + 1, s) == if Alive(s) then InRange(env, prog[a], a, s).1 else s
  {
    if Alive(s) {
      var s1 := InRange(env, prog[a], a, s).1;
      assert UpdateRanges(env, prog, a + 1, a + 1, s1) == s1;
    }
  }

  /** `update_ranges` over the flat commands of a script does what skipping the
      script means. */
  lemma {:induction false} UpdateIsSkip(env: Env, prog: seq<Cmd>, p: Script, k: nat, s: State)
    requires Placed(prog, p, k) && |s.inMatch| == |prog|
    ensures UpdateRanges(env, prog, k, k + Sizes(p), s) == Skip(env, p, k, s)
    decreases p
  {
    if p.Cons? {
      var m := k + Size(p.head);
      UpdateSplit(env, prog, k, m, k + Sizes(p), s);
      UpdateIsSkipItem(env, prog, p.head, k, s);
      UpdateIsSkip(env, prog, p.tail, m, SkipItem(env, p.head, k, s));
    }
  }

  lemma {:induction false} UpdateIsSkipItem(env: Env, prog: seq<Cmd>, i: Item, k: nat, s: State)
    requires PlacedItem(prog, i, k) && |s.inMatch| == |prog|
    ensures UpdateRanges(env, prog, k, k + Size(i), s) == SkipItem(env, i, k, s)
    decreases i, 1
  {
    match i
    case Leaf(c) =>
      UpdateOne(env, prog, k, s);
    case Block(_, _, _) => UpdateIsSkipBlock(env, prog, i, k, s);
  }

  lemma {:induction false} UpdateIsSkipBlock(env: Env, prog: seq<Cmd>, i: Item, k: nat, s: State)
    requires PlacedItem(prog, i, k) && i.Block? && |s.inMatch| == |prog|
    ensures UpdateRanges(env, prog, k, k + Size(i), s) == SkipItem(env, i, k, s)
    decreases i, 0
  {
    UpdateBlock(env, prog, k, k + 1 + Sizes(i.body), s);
    if Alive(s) { UpdateIsSkip(env, prog, i.body, k + 1, InRange(env, prog[k], k, s).1); }
  }

  lemma UpdateBlock(env: Env, prog: seq<Cmd>, k: nat, e: nat, s: State)
    requires k < e < |prog| == |s.inMatch| && prog[e] == CLOSE
    ensures UpdateRanges(env, prog, k, e + 1, s)
         == if Alive(s) then UpdateRanges(env, prog, k + 1, e, InRange(env, prog[k], k, s).1) else s
  {
    if Alive(s) { UpdateToClose(env, prog, k + 1, e, InRange(env, prog[k], k, s).1); }
  }

  /** The `}` of a block has no range. */
  lemma UpdateToClose(env: Env, prog: seq<Cmd>, k: nat, e: nat, s: State)
    requires k <= e < |prog| == |s.inMatch| && prog[e] == CLOSE
    ensures UpdateRanges(env, prog, k, e + 1, s) == UpdateRanges(env, prog, k, e, s)
  {
    var t := UpdateRanges(env, prog, k, e, s);
    UpdateSplit(env, prog, k, e, e + 1, s);
    UpdateOne(env, prog, e, t);
    ConsultClose(env, e, t);
  }

  // runs

  /** The machine gets from one place and state to another. */
  ghost predicate Leads(env: Env, prog: seq<Cmd>, k: nat, s: State, k': nat, t: State)
    requires JumpsInside(prog) && k < |prog| && |s.inMatch| == |prog|
  {
      exists n: nat :: Run(env, prog, k, s, n) == (k', t)
  }

  lemma {:induction false} RunPlus(env: Env, prog: seq<Cmd>, k: nat, s: State, n: nat, m: nat)
    requires JumpsInside(prog) && k < |prog| && |s.inMatch| == |prog|
    ensures var (p, t) := Run(env, prog, k, s, n); Run(env, prog, k, s, n + m) == Run(env, prog, p, t, m)
    decreases n
  {
    if n > 0 && Alive(s) {
      PcInside(env, prog, k, s);
      var (p, t) := Step(env, prog, k, s);
      RunPlus(env, prog, p, t, n - 1, m);
    }
  }

  lemma LeadsOn(env: Env, prog: seq<Cmd>, k: nat, s: State, k1: nat, s1: State, k2: nat, s2: State)
    requires JumpsInside(prog) && k < |prog| && |s.inMatch| == |prog| && k1 < |prog| && |s1.inMatch| == |prog|
    requires Leads(env, prog, k, s, k1, s1) && Leads(env, prog, k1, s1, k2, s2)
    ensures Leads(env, prog, k, s, k2, s2)
  {
    var n: nat :| Run(env, prog, k, s, n) == (k1, s1);
    var m: nat :| Run(env, prog, k1, s1, m) == (k2, s2);
    RunPlus(env, prog, k, s, n, m);
  }

  lemma LeadsNowhere(env: Env, prog: seq<Cmd>, k: nat, s: State)
    requires JumpsInside(prog) && k < |prog| && |s.inMatch| == |prog|
    ensures Leads(env, prog, k, s, k, s)
  {
    assert Run(env, prog, k, s, 0) == (k, s);
  }

  lemma LeadsStep(env: Env, prog: seq<Cmd>, k: nat, s: State) returns (k': nat, t: State)
    requires JumpsInside(prog) && k < |prog| && |s.inMatch| == |prog| && Alive(s)
    ensures (k', t) == Step(env, prog, k, s) && k' < |prog| && |t.inMatch| == |prog|
    ensures Leads(env, prog, k, s, k', t)
  {
    PcInside(env, prog, k, s);
    k', t := Step(env, prog, k, s).0, Step(env, prog, k, s).1;
    assert Run(env, prog, k', t, 0) == (k', t);
    assert Run(env, prog, k, s, 1) == (k', t);
  }

  /** The end of a cycle that a command cut short: what stands from k on is
      skipped and, if so told, the next line is read. */
  function CutShort(env: Env, prog: seq<Cmd>, k: nat, read: bool, s: State): (q: State)
    requires |s.inMatch| == |prog| && k <= |prog|
    ensures |q.inMatch| == |prog|
  {
    var t := UpdateRanges(env, prog, k, |prog|, s);
    if Alive(t) && read then t.(r := NewLine(t.r)) else t
  }

  lemma StepLeaf(env: Env, prog: seq<Cmd>, k: nat, s: State)
    requires JumpsInside(prog) && k < |prog| && |s.inMatch| == |prog| && Alive(s) && LeafOk(prog[k])
    ensures var (f, t) := MeanLeaf(env, prog[k], k, s);
            match f
            case Go => Alive(t) && Step(env, prog, k, s) == (k + 1, t)
            case Stop => !Alive(t) && Step(env, prog, k, s) == (k + 1, t)
            case NewCycle(read) => Alive(t) && Step(env, prog, k, s) == (0, CutShort(env, prog, k + 1, read, t))
  {
  }

  /** The flat machine, started at k, does what q says and ends at e. */
  ghost predicate Simulates(env: Env, prog: seq<Cmd>, k: nat, s: State, e: nat, q: (Flow, State))
    requires JumpsInside(prog) && k < |prog| && e < |prog| && |s.inMatch| == |prog| == |q.1.inMatch|
  {
    match q.0
    case Go => Alive(q.1) && Leads(env, prog, k, s, e, q.1)
    case Stop => !Alive(q.1) && exists k' :: 0 <= k' < |prog| && Leads(env, prog, k, s, k', q.1)
    case NewCycle(read) => Leads(env, prog, k, s, 0, CutShort(env, prog, e, read, q.1))
  }

  // single commands

  lemma LeafSimulates(env: Env, prog: seq<Cmd>, k: nat, s: State)
    requires JumpsInside(prog) && k + 1 < |prog| && |s.inMatch| == |prog| && Alive(s) && LeafOk(prog[k])
    ensures Simulates(env, prog, k, s, k + 1, MeanLeaf(env, prog[k], k, s))
  {
    StepLeaf(env, prog, k, s);
    var k1, s1 := LeadsStep(env, prog, k, s);
  }

  lemma OpenSteps(env: Env, prog: seq<Cmd>, k: nat, s: State)
    requires JumpsInside(prog) && k < |prog| && prog[k].op.Open? && |s.inMatch| == |prog| && Alive(s)
    ensures var (b, s1) := InRange(env, prog[k], k, s);
            var e := prog[k].op.offset;
            && k < e < |prog| - 1
            && if !Alive(s1) || b then Leads(env, prog, k, s, k + 1, s1)
               else Leads(env, prog, k, s, e + 1, UpdateRanges(env, prog, k + 1, e, s1))
  {
    assert JumpOk(prog, k);
    var k2, s2 := LeadsStep(env, prog, k, s);
  }

  /** Entering a block, or passing over it. */
  lemma OpenLeads(env: Env, prog: seq<Cmd>, i: Item, k: nat, s: State)
    requires JumpsInside(prog) && PlacedItem(prog, i, k) && i.Block? && |s.inMatch| == |prog| && Alive(s)
    ensures prog[k] == Cmd(i.range, i.negate, Open(k + 1 + Sizes(i.body)))
    ensures var (b, s1) := InRange(env, prog[k], k, s);
            if !Alive(s1) || b then Leads(env, prog, k, s, k + 1, s1)
            else Leads(env, prog, k, s, k + Size(i), Skip(env, i.body, k + 1, s1))
  {
    OpenSteps(env, prog, k, s);
    UpdateIsSkip(env, prog, i.body, k + 1, InRange(env, prog[k], k, s).1);
  }

  lemma CloseLeads(env: Env, prog: seq<Cmd>, k: nat, s: State)
    requires JumpsInside(prog) && k + 1 < |prog| && |s.inMatch| == |prog| && Alive(s) && prog[k] == CLOSE
    ensures Leads(env, prog, k, s, k + 1, s)
  {
    var k2, s2 := LeadsStep(env, prog, k, s);
  }

  lemma LastLeads(env: Env, prog: seq<Cmd>, e: nat, s: State)
    requires JumpsInside(prog) && e == |prog| - 1 && |s.inMatch| == |prog| && Alive(s)
    ensures Leads(env, prog, e, s, 0, s.(r := NewLine(DoWrites(AutoPrint(env.quiet, s.r)).(patt := ""))))
  {
    var k2, s2 := LeadsStep(env, prog, e, s);
  }

  lemma SimulatesAfter(env: Env, prog: seq<Cmd>, k: nat, s: State, m: nat, t: State, e: nat, q: (Flow, State))
    requires JumpsInside(prog) && k < |prog| && m < |prog| && e < |prog| &&
             |s.inMatch| == |prog| == |t.inMatch| == |q.1.inMatch|
    requires Leads(env, prog, k, s, m, t) && Simulates(env, prog, m, t, e, q)
    ensures Simulates(env, prog, k, s, e, q)
  {
    match q.0
    case Go => LeadsOn(env, prog, k, s, m, t, e, q.1);
    case Stop =>
      var k' :| 0 <= k' < |prog| && Leads(env, prog, m, t, k', q.1);
      LeadsOn(env, prog, k, s, m, t, k', q.1);
    case NewCycle(read) => LeadsOn(env, prog, k, s, m, t, 0, CutShort(env, prog, e, read, q.1));
  }

  lemma CutShortSkips(env: Env, prog: seq<Cmd>, p: Script, k: nat, read: bool, s: State)
    requires Placed(prog, p, k) && |s.inMatch| == |prog|
    ensures CutShort(env, prog, k, read, s) == CutShort(env, prog, k + Sizes(p), read, Skip(env, p, k, s))
  {
    UpdateSplit(env, prog, k, k + Sizes(p), |prog|, s);
    UpdateIsSkip(env, prog, p, k, s);
  }

  /** A command that ends the cycle: what follows it is skipped. */
  lemma SimCut(env: Env, prog: seq<Cmd>, p: Script, k: nat, s: State, m: nat, read: bool, t: State)
    requires JumpsInside(prog) && Placed(prog, p, m) && k < |prog| && |s.inMatch| == |prog| == |t.inMatch|
    requires Simulates(env, prog, k, s, m, (NewCycle(read), t))
    ensures Simulates(env, prog, k, s, m + Sizes(p), (NewCycle(read), Skip(env, p, m, t)))
  {
    CutShortSkips(env, prog, p, m, read, t);
  }

  /** A script is simulated when its first command is and, if that one goes on,
      the rest. */
  lemma SimCons(env: Env, prog: seq<Cmd>, rest: Script, k: nat, s: State, m: nat, q: (Flow, State), q': (Flow, State))
    requires JumpsInside(prog) && Placed(prog, rest, m) && k < |prog| &&
             |s.inMatch| == |prog| == |q.1.inMatch| == |q'.1.inMatch|
    requires Simulates(env, prog, k, s, m, q) && q' == Then(env, rest, m, q)
    requires q.0 == Go ==> Simulates(env, prog, m, q.1, m + Sizes(rest), q')
    ensures Simulates(env, prog, k, s, m + Sizes(rest), q')
  {
    match q.0
    case Go => SimulatesAfter(env, prog, k, s, m, q.1, m + Sizes(rest), q');
    case NewCycle(read) => SimCut(env, prog, rest, k, s, m, read, q.1);
    case Stop =>
  }

  lemma {:induction false} SimScript(env: Env, prog: seq<Cmd>, p: Script, k: nat, s: State)
    requires JumpsInside(prog) && Placed(prog, p, k) && ScriptOk(p) && |s.inMatch| == |prog| && Alive(s)
    ensures Simulates(env, prog, k, s, k + Sizes(p), Mean(env, p, k, s))
    decreases p
  {
    match p
    case Nil => LeadsNowhere(env, prog, k, s);
    case Cons(i, rest) =>
      var m := k + Size(i);
      var q := SimItem(env, prog, i, k, s);
      if q.0 == Go { SimScript(env, prog, rest, m, q.1); }
      SimCons(env, prog, rest, k, s, m, q, Mean(env, p, k, s));
  }

  lemma {:induction false} SimItem(env: Env, prog: seq<Cmd>, i: Item, k: nat, s: State) returns (q: (Flow, State))
    requires JumpsInside(prog) && PlacedItem(prog, i, k) && ItemOk(i) && |s.inMatch| == |prog| && Alive(s)
    ensures q == MeanItem(env, i, k, s) && Simulates(env, prog, k, s, k + Size(i), q)
    decreases i
  {
    q := MeanItem(env, i, k, s);
    match i
    case Leaf(c) =>
      LeafSimulates(env, prog, k, s);
    case Block(_, _, body) =>
      OpenLeads(env, prog, i, k, s);
      var (b, t) := InRange(env, prog[k], k, s);
      if Alive(t) && b {
        SimScript(env, prog, body, k + 1, t);
        SimBody(env, prog, i, k, s, t);
      } else if Alive(t) {
        SkipSimulates(env, prog, k, s, k + Size(i), Skip(env, body, k + 1, t));
      }
  }

  lemma SkipSimulates(env: Env, prog: seq<Cmd>, k: nat, s: State, e: nat, t: State)
    requires JumpsInside(prog) && k < |prog| && e < |prog| && |s.inMatch| == |prog| == |t.inMatch|
    requires Leads(env, prog, k, s, e, t)
    ensures Simulates(env, prog, k, s, e, (FlowOf(t), t))
  {
  }

  lemma SimBody(env: Env, prog: seq<Cmd>, i: Item, k: nat, s: State, s1: State)
    requires JumpsInside(prog) && PlacedItem(prog, i, k) && i.Block?
    requires |s.inMatch| == |prog| == |s1.inMatch| && Leads(env, prog, k, s, k + 1, s1)
    requires Simulates(env, prog, k + 1, s1, k + 1 + Sizes(i.body), Mean(env, i.body, k + 1, s1))
    ensures Simulates(env, prog, k, s, k + Size(i), Mean(env, i.body, k + 1, s1))
  {
    var e := k + 1 + Sizes(i.body);
    var q := Mean(env, i.body, k + 1, s1);
    SimulatesAfter(env, prog, k, s, k + 1, s1, e, q);
    match q.0
    case Go =>
      CloseLeads(env, prog, e, q.1);
      LeadsOn(env, prog, k, s, e, q.1, e + 1, q.1);
    case NewCycle(_) =>
      UpdateSplit(env, prog, e, e + 1, |prog|, q.1);
      UpdateOne(env, prog, e, q.1);
      ConsultClose(env, e, q.1);
    case Stop =>
  }

  /** One cycle of the flat program of a script is one cycle of the script: the
      same registers, the same range state of every command, the same record of
      consulted ranges. */
  lemma FlatCycle(env: Env, p: Script, s: State) returns (k: nat)
    requires ScriptOk(p) && |s.inMatch| == |Program(p)| && Alive(s)
    ensures JumpsInside(Program(p)) && k < |Program(p)|
    ensures Leads(env, Program(p), 0, s, k, Cycle(env, p, s))
    ensures Alive(Cycle(env, p, s)) ==> k == 0
  {
    var prog, e := Program(p), Sizes(p);
    ProgramOk(p);
    SimScript(env, prog, p, 0, s);
    var q := Mean(env, p, 0, s);
    match q.0
    case Go =>
      k := 0;
      LastLeads(env, prog, e, q.1);
      LeadsOn(env, prog, 0, s, e, q.1, 0, Cycle(env, p, s));
    case NewCycle(read) =>
      k := 0;
      UpdateSplit(env, prog, e, e + 1, |prog|, q.1);
      UpdateOne(env, prog, e, q.1);
      ConsultClose(env, e, q.1);
    case Stop =>
      k :| 0 <= k < |prog| && Leads(env, prog, 0, s, k, q.1);
  }

  /** m cycles, or fewer if sed stops. */
  function Cycles(env: Env, p: Script, s: State, m: nat): (q: State)
    requires Sizes(p) <= |s.inMatch|
    ensures |q.inMatch| == |s.inMatch|
    decreases m
  {
    if m == 0 || !Alive(s) then s else Cycles(env, p, Cycle(env, p, s), m - 1)
  }

  /** Running the flat program means running the nested script, for any number of
      cycles and until sed stops: after some number of turns the state is that of
      the script, and while sed goes on the machine is back at its start. */
  lemma FlatRun(env: Env, p: Script, s: State, m: nat) returns (n: nat)
    requires ScriptOk(p) && |s.inMatch| == |Program(p)|
    ensures JumpsInside(Program(p))
    ensures var (k, t) := Run(env, Program(p), 0, s, n);
            t == Cycles(env, p, s, m) && (Alive(t) ==> k == 0)
  {
    ProgramOk(p);
    var k := FlatLeads(env, p, s, m);
    var t := Cycles(env, p, s, m);
    n :| Run(env, Program(p), 0, s, n) == (k, t);
  }

  lemma {:induction false} FlatLeads(env: Env, p: Script, s: State, m: nat) returns (k: nat)
    requires ScriptOk(p) && |s.inMatch| == |Program(p)|
    ensures JumpsInside(Program(p)) && k < |Program(p)|
    ensures Leads(env, Program(p), 0, s, k, Cycles(env, p, s, m))
    ensures Alive(Cycles(env, p, s, m)) ==> k == 0
    decreases m
  {
    ProgramOk(p);
    k := 0;
    if m == 0 || !Alive(s) {
      LeadsNowhere(env, Program(p), 0, s);
    } else {
      k := FlatCycle(env, p, s);
      var t := Cycle(env, p, s);
      if Alive(t) {
        var k' := FlatLeads(env, p, t, m - 1);
        LeadsOn(env, Program(p), 0, s, 0, t, k', Cycles(env, p, t, m - 1));
        k := k';
      } else {
        assert Cycles(env, p, t, m - 1) == t;
      }
    }
  }

  lemma NestedTidy(p: Script)
    requires ScriptOk(p)
    ensures JumpsInside(Program(p)) && TidyProgram(Program(p))
  {
    var prog := Program(p);
    ProgramOk(p);
    PlacedJumps(prog, p, 0);
    forall i | 0 <= i < |prog| ensures !prog[i].op.Branch? && !prog[i].op.Test? {
      if i < Sizes(p) { assert NoBranch(prog, i); }
    }
  }

  /** A script without branches is tidy, so on every run of it each addressed
      command has its range consulted exactly once in every cycle completed, in
      order, whether it is executed, skipped or cut off. */
  lemma NestedOnTrack(env: Env, p: Script, ps: seq<int>, ss: seq<State>, n: nat)
    requires ScriptOk(p) && IsRun(env, Program(p), ps, ss) && n < |ps| && ss[n].r.status != Fatal
    ensures Recorded(Program(p), ss[0].Log(), Returns(ps, n), ps[n], ss[n])
    ensures forall k :: 0 <= k < |Program(p)| && Ranged(Program(p)[k]) ==>
              multiset(ss[n].Log())[k] == multiset(ss[0].Log())[k] + Returns(ps, n) + if k < ps[n] then 1 else 0
  {
    var prog := Program(p);
    NestedTidy(p);
    RunOnTrack(env, prog, ps, ss, n);
    forall k | 0 <= k < |prog| && Ranged(prog[k])
      ensures multiset(ss[n].Log())[k] == multiset(ss[0].Log())[k] + Returns(ps, n) + if k < ps[n] then 1 else 0
    {
      RecordedCount(prog, ss[0].Log(), Returns(ps, n), ps[n], ss[n], k);
    }
  }
}

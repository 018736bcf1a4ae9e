/** sed's running machine: a flat program with stored jumps, a program counter,
    and for every command the state of its address range. */
module SedMachine {
  import opened Basics

  // ------------------------------------------------------------- programs

  datatype Addr = Ignore | Every | LineNo(n: int) | LastLine | Regex(re: nat) | LastRegex

  datatype Range = Range(beg: Addr, end: Addr)

  function NAddr(r: Range): nat {
    if r.beg == Every && r.end == Ignore then 0
    else if r.end == Ignore then 1
    else 2
  }

  /** Commands that only work on the registers.  `s`, `y`, `l`, `r` and `w` reach
      outside (regular expressions, files); sid and fid name their arguments. */
  datatype Edit =
    | AppendText(text: string)      // a
    | ReadFile(fid: nat)            // r
    | InsertText(text: string)      // i
    | GetHold | AddHold             // g G
    | PutHold | AddToHold           // h H
    | Exchange                      // x
    | Print | PrintFirst            // p P
    | LineNumber                    // =
    | NextLine | AddLine            // n N
    | Quit                          // q
    | Substitute(sid: nat)          // s
    | Other(sid: nat)               // l w y

  datatype Op =
    | Apply(e: Edit)
    | Delete | DeleteFirst | Change(text: string)   // d D c
    | Open(offset: int) | Close                     // { }
    | Label(name: string)
    | Branch(jump: int) | Test(jump: int)           // b t
    | Last                                          // end of the script

  datatype Cmd = Cmd(range: Range, negate: bool, op: Op)

  /** Commands that take addresses. */
  predicate Ranged(c: Cmd) { !c.op.Close? && !c.op.Label? && !c.op.Last? }

  /** What `make_range` leaves on a command without addresses; the last command
      is given an ignored range. */
  predicate Unaddressed(c: Cmd) {
    c.range == (if c.op == Last then Range(Ignore, Ignore) else Range(Every, Ignore))
  }

  // ------------------------------------------------------------- registers

  datatype Status = Going | Halted | Fatal

  /** Pattern and hold space, the rest of the input, and so on; writes are the
      outputs scheduled for the end of the cycle. */
  datatype Regs = Regs(
    patt: string, hold: string, input: seq<string>, lineno: nat,
    lastre: Option<nat>, replaced: bool, out: seq<string>, writes: seq<string>, status: Status)

  /** The effect of an `s`, if it can run: the new pattern space, whether it
      replaced anything, the regex it used, and what it printed. */
  datatype Outcome = Outcome(patt: string, replaced: bool, re: nat, printed: seq<string>)

  /** What the machine asks of the world: regex matching, and the commands whose
      arguments are not modelled. */
  datatype World = World(
    quiet: bool,
    matches: (nat, string) -> bool,
    substitute: (nat, string, Option<nat>) -> Option<Outcome>,
    other: (nat, string) -> (string, seq<string>),
    file: nat -> seq<string>)

  function DoWrites(r: Regs): Regs { r.(out := r.out + r.writes, writes := []) }

  function AutoPrint(quiet: bool, r: Regs): Regs { if quiet then r else r.(out := r.out + [r.patt]) }

  /** `new_line`: the next line of input replaces the pattern space. */
  function NewLine(r: Regs): Regs {
    if r.input == [] then r.(status := Halted)
    else r.(patt := r.input[0], input := r.input[1..], replaced := false, lineno := r.lineno + 1)
  }

  /** `app_line`. */
  function AppLine(r: Regs): Regs {
    if r.input == [] then r.(status := Halted)
    else r.(patt := r.patt + "\n" + r.input[0], input := r.input[1..], replaced := false, lineno := r.lineno + 1)
  }

  /** Position of the first newline, or the length. */
  function FirstNewline(s: string): (n: nat)
    ensures n <= |s| && (n < |s| ==> s[n] == '\n') && '\n' !in s[..n]
  {
    if s == "" then 0 else if s[0] == '\n' then 0 else 1 + FirstNewline(s[1..])
  }

  function Decimal(n: nat): string {
    var digit := ["0123456789"[n % 10]];
    if n < 10 then digit else Decimal(n / 10) + digit
  }

  function DoEdit(w: World, e: Edit, r: Regs): Regs {
    match e
    case AppendText(t) => r.(writes := r.writes + [t])
    case ReadFile(f) => r.(writes := r.writes + w.file(f))
    case InsertText(t) => r.(out := r.out + [t])
    case GetHold => r.(patt := r.hold)
    case AddHold => r.(patt := r.patt + "\n" + r.hold)
    case PutHold => r.(hold := r.patt)
    case AddToHold => r.(hold := r.hold + "\n" + r.patt)
    case Exchange => r.(patt := r.hold, hold := r.patt)
    case Print => r.(out := r.out + [r.patt])
    case PrintFirst => r.(out := r.out + [r.patt[..FirstNewline(r.patt)]])
    case LineNumber => r.(out := r.out + [Decimal(r.lineno)])
    case NextLine => NewLine(DoWrites(AutoPrint(w.quiet, r)))
    case AddLine => AppLine(DoWrites(r))
    case Quit => DoWrites(AutoPrint(w.quiet, r)).(status := Halted)
    case Substitute(sid) =>
      (match w.substitute(sid, r.patt, r.lastre)
       case None => r.(status := Fatal)
       case Some(o) =>
         r.(patt := o.patt, replaced := r.replaced || o.replaced, lastre := Some(o.re), out := r.out + o.printed))
    case Other(sid) =>
      var (p, o) := w.other(sid, r.patt);
      r.(patt := p, out := r.out + o)
  }

  // --------------------------------------------------------------- ranges

  /** The machine's state besides the program counter: registers, the `in_match`
      bit of every command, and a record of the commands whose range has been
      consulted, in order. */
  datatype State = State(r: Regs, inMatch: seq<bool>, seen: seq<Seen>) {
    /** The numbers of the commands consulted. */
    function Log(): seq<int> { Numbers(seen) }
  }

  /** A consult: the number of the command, the registers it was made with and its
      answer. */
  datatype Seen = Seen(k: nat, r: Regs, answer: bool)

  function Numbers(seen: seq<Seen>): seq<int> { seq(|seen|, i requires 0 <= i < |seen| => seen[i].k) }

  predicate Alive(s: State) { s.r.status == Going }

  /** `match_addr`: whether an address matches the current line.  A regular
      expression becomes the last one used; without a last one, the empty
      expression is fatal. */
  function MatchAddr(w: World, a: Addr, r: Regs): (bool, Regs) {
    match a
    case Ignore => (false, r)
    case Every => (true, r)
    case LineNo(n) => (r.lineno == n, r)
    case LastLine => (r.input == [], r)
    case Regex(re) => (w.matches(re, r.patt), r.(lastre := Some(re)))
    case LastRegex =>
      if r.lastre.None? then (false, r.(status := Fatal)) else (w.matches(r.lastre.value, r.patt), r)
  }

  function Bit(b: bool, negate: bool): bool { b != negate }

  /** `in_range` on a command c with its bit: gives the answer, the new bit and
      the registers. */
  function Consult(w: World, c: Cmd, bit: bool, r: Regs): (bool, bool, Regs) {
    var (m, r1) := MatchAddr(w, c.range.beg, r);
    if r1.status != Going then (false, bit, r1)
    else if m then
      var bit1 := if NAddr(c.range) == 2
                  then !(c.range.end.LineNo? && c.range.end.n <= r1.lineno)
                  else bit;
      (Bit(true, c.negate), bit1, r1)
    else if bit then
      var (e, r2) := MatchAddr(w, c.range.end, r1);
      if r2.status != Going then (false, bit, r2)
      else if e then (Bit(true, c.negate), false, r2)
      else (Bit(true, c.negate), true, r2)
    else (Bit(false, c.negate), false, r1)
  }

  /** What the flow of control needs of the rest: whether `-n` was given, how a
      range is consulted and what a command does to the registers. */
  datatype Control = Control(quiet: bool, consult: (Cmd, bool, Regs) -> (bool, bool, Regs), edit: (Edit, Regs) -> Regs)

  /** Consulting a range never ends the run normally, and changes nothing on a
      command without addresses. */
  ghost predicate Tame(env: Control) {
    forall c, bit, r ::
      var q := env.consult(c, bit, r);
      && (r.status == Going && q.2.status != Fatal ==> q.2.status == Going)
      && (Unaddressed(c) ==> q.1 == bit && q.2 == r)
  }

  /** Everything below about jumps, blocks and cycles holds for every such
      control; EnvOf gives sed's. */
  type Env = env: Control | Tame(env) witness Control(true, (c, bit, r) => (false, bit, r), (e, r) => r)

  lemma ConsultGoes(env: Env, c: Cmd, bit: bool, r: Regs)
    requires r.status == Going
    ensures env.consult(c, bit, r).2.status != Halted
  {
    assert Tame(env);
    var q := env.consult(c, bit, r);
    assert q.2.status != Fatal ==> q.2.status == Going;
  }

  function EnvOf(w: World): Env {
    Control(w.quiet, (c, bit, r) => Consult(w, c, bit, r), (e, r) => DoEdit(w, e, r))
  }

  /** The same for command number k of the state. */
  function InRange(env: Env, c: Cmd, k: nat, s: State): (q: (bool, State))
    requires k < |s.inMatch|
    ensures |q.1.inMatch| == |s.inMatch|
  {
    var (b, bit, r) := env.consult(c, s.inMatch[k], s.r);
    (b, State(r, s.inMatch[k := bit], if Ranged(c) then s.seen + [Seen(k, s.r, b)] else s.seen))
  }

  lemma InRangeNumber(env: Env, c: Cmd, k: nat, s: State)
    requires k < |s.inMatch|
    ensures InRange(env, c, k, s).1.Log() == if Ranged(c) then s.Log() + [k] else s.Log()
  {
  }

  /** `update_ranges`: consults the ranges of prog[beg..end], which execution
      passes over; a fatal error stops it. */
  function UpdateRanges(env: Env, prog: seq<Cmd>, beg: nat, end: int, s: State): (q: State)
    requires |s.inMatch| == |prog| && end <= |prog|
    ensures |q.inMatch| == |s.inMatch|
    decreases end - beg
  {
    if beg >= end || !Alive(s) then s
    else UpdateRanges(env, prog, beg + 1, end, InRange(env, prog[beg], beg, s).1)
  }

  // ---------------------------------------------------------------- steps

  /** Before the first command. */
  const START := -1

  /** `new_next`: the ranges of the rest of the program are brought up to date
      and the next line starts a new cycle. */
  function NewNext(env: Env, prog: seq<Cmd>, pc: nat, s: State): (q: State)
    requires |s.inMatch| == |prog| && pc < |prog|
    ensures |q.inMatch| == |s.inMatch|
  {
    var s1 := UpdateRanges(env, prog, pc + 1, |prog|, s.(r := s.r.(patt := "")));
    if Alive(s1) then s1.(r := NewLine(s1.r)) else s1
  }

  /** What a jump from pc does: ranges up to the destination, or to the end of
      the program when the jump goes backwards. */
  function Jump(env: Env, prog: seq<Cmd>, pc: nat, jump: int, s: State): (q: State)
    requires |s.inMatch| == |prog| && pc < |prog| && jump <= |prog|
    ensures |q.inMatch| == |s.inMatch|
  {
    UpdateRanges(env, prog, pc + 1, if jump > pc then jump else |prog|, s)
  }

  /** Stored offsets and jumps point into the program, before its last command,
      which is where `cmd_last` stands; an offset points forward to a `}`. */
  ghost predicate JumpOk(prog: seq<Cmd>, i: nat)
    requires i < |prog|
  {
    match prog[i].op
    case Open(offset) => i < offset < |prog| - 1 && prog[offset].op == Close
    case Branch(jump) => 0 <= jump < |prog| - 1
    case Test(jump) => 0 <= jump < |prog| - 1
    case Last => i == |prog| - 1
    case _ => true
  }

  ghost predicate JumpsInside(prog: seq<Cmd>) {
    && |prog| > 0 && prog[|prog| - 1].op == Last
    && forall i: nat {:trigger JumpOk(prog, i)} :: i < |prog| ==> JumpOk(prog, i)
  }

  /** The command at pc once its range has been consulted with answer b: the
      value of the program counter before `pc++`, and the state. */
  function AfterRange(env: Env, prog: seq<Cmd>, pc: nat, b: bool, s: State): (q: (int, State))
    requires |s.inMatch| == |prog| && pc < |prog| && JumpsInside(prog) && Ranged(prog[pc])
    ensures |q.1.inMatch| == |s.inMatch|
  {
    var c := prog[pc];
    assert JumpOk(prog, pc);
    if !b then
      if c.op.Open? then (c.op.offset, UpdateRanges(env, prog, pc + 1, c.op.offset, s)) else (pc, s)
    else
      match c.op
      case Apply(e) => (pc, s.(r := env.edit(e, s.r)))
      case Delete => (START, NewNext(env, prog, pc, s))
      case DeleteFirst =>
        var n := FirstNewline(s.r.patt);
        if n < |s.r.patt|
        then (START, UpdateRanges(env, prog, pc + 1, |prog|, s.(r := s.r.(patt := s.r.patt[n + 1..]))))
        else (START, NewNext(env, prog, pc, s))
      case Change(text) =>
        var s2 := if !s.inMatch[pc] then s.(r := s.r.(out := s.r.out + [text])) else s;
        (START, NewNext(env, prog, pc, s2))
      case Branch(jump) => (jump, Jump(env, prog, pc, jump, s))
      case Test(jump) =>
        if s.r.replaced
        then var s2 := Jump(env, prog, pc, jump, s); (jump, s2.(r := s2.r.(replaced := false)))
        else (pc, s)
      case _ => (pc, s)
  }

  /** One command. */
  function Exec(env: Env, prog: seq<Cmd>, pc: nat, s: State): (q: (int, State))
    requires |s.inMatch| == |prog| && pc < |prog| && JumpsInside(prog)
    ensures |q.1.inMatch| == |s.inMatch|
  {
    var c := prog[pc];
    if c.op.Close? || c.op.Label? then (pc, s)
    else if c.op.Last? then
      (START, NewNext(env, prog, pc, s.(r := DoWrites(AutoPrint(env.quiet, s.r)))))
    else
      var (b, s1) := InRange(env, c, pc, s);
      if !Alive(s1) then (pc, s1) else AfterRange(env, prog, pc, b, s1)
  }

  /** One turn of the loop of `run`. */
  function Step(env: Env, prog: seq<Cmd>, pc: nat, s: State): (q: (int, State))
    requires |s.inMatch| == |prog| && pc < |prog| && JumpsInside(prog)
    ensures |q.1.inMatch| == |s.inMatch|
  {
    var (p, t) := Exec(env, prog, pc, s);
    (p + 1, t)
  }

  /** n turns, or fewer if the machine stops. */
  function Run(env: Env, prog: seq<Cmd>, pc: int, s: State, n: nat): (q: (int, State))
    requires |s.inMatch| == |prog| && JumpsInside(prog) && 0 <= pc < |prog|
    ensures |q.1.inMatch| == |prog|
    ensures 0 <= q.0 < |prog|
    decreases n
  {
    if n == 0 || !Alive(s) then (pc, s)
    else
      PcInside(env, prog, pc, s);
      var (p, t) := Step(env, prog, pc, s);
      Run(env, prog, p, t, n - 1)
  }

  /** Whatever the program branches on, the program counter stays inside it. */
  lemma PcInside(env: Env, prog: seq<Cmd>, pc: nat, s: State)
    requires |s.inMatch| == |prog| && pc < |prog| && JumpsInside(prog)
    ensures 0 <= Step(env, prog, pc, s).0 < |prog|
  {
    assert JumpOk(prog, pc);
  }

  // --------------------------------------- every range once in every cycle

  /** The commands with addresses among prog[a..b], by number. */
  function RangedBetween(prog: seq<Cmd>, a: nat, b: int): seq<int>
    requires b <= |prog|
    decreases b - a
  {
    if a >= b then []
    else (if Ranged(prog[a]) then [a] else []) + RangedBetween(prog, a + 1, b)
  }

  lemma {:induction false} RangedSplit(prog: seq<Cmd>, a: nat, b: nat, c: nat)
    requires a <= b <= c <= |prog|
    ensures RangedBetween(prog, a, c) == RangedBetween(prog, a, b) + RangedBetween(prog, b, c)
    decreases b - a
  {
    if a < b {
      RangedSplit(prog, a + 1, b, c);
      var first := if Ranged(prog[a]) then [a] else [];
      Assoc(first, RangedBetween(prog, a + 1, b), RangedBetween(prog, b, c));
    }
  }

  lemma RangedOne(prog: seq<Cmd>, a: nat)
    requires a < |prog|
    ensures RangedBetween(prog, a, a + 1) == if Ranged(prog[a]) then [a] else []
  {
    assert RangedBetween(prog, a + 1, a + 1) == [];
  }

  lemma {:induction false} UpdateRangesLog(env: Env, prog: seq<Cmd>, beg: nat, end: int, s: State)
    requires |s.inMatch| == |prog| && end <= |prog| && Alive(s)
    ensures var t := UpdateRanges(env, prog, beg, end, s);
            t.r.status != Fatal ==> Alive(t) && t.Log() == s.Log() + RangedBetween(prog, beg, end)
    decreases end - beg
  {
    assert s.Log() + [] == s.Log();
    if beg < end {
      var s1 := InRange(env, prog[beg], beg, s).1;
      ConsultGoes(env, prog[beg], s.inMatch[beg], s.r);
      InRangeNumber(env, prog[beg], beg, s);
      if Alive(s1) {
        UpdateRangesLog(env, prog, beg + 1, end, s1);
        var first := if Ranged(prog[beg]) then [beg] else [];
        Assoc(s.Log(), first, RangedBetween(prog, beg + 1, end));
      } else {
        assert UpdateRanges(env, prog, beg + 1, end, s1) == s1;
      }
    }
  }

  /** With the program counter at p the record of this cycle, begun after `base`,
      holds every addressed command before p exactly once and in order; at 0, a
      whole cycle has just been recorded. */
  ghost predicate OnTrack(prog: seq<Cmd>, base: seq<int>, p: nat, log: seq<int>)
    requires p <= |prog|
  {
    log == base + RangedBetween(prog, 0, if p == 0 then |prog| else p)
  }

  /** The destination of the branch that this step takes, if it takes one. */
  function Taken(env: Env, prog: seq<Cmd>, pc: nat, s: State): Option<int>
    requires |s.inMatch| == |prog| && pc < |prog|
  {
    var c := prog[pc];
    if !c.op.Branch? && !c.op.Test? then None
    else
      var (b, s1) := InRange(env, c, pc, s);
      if !Alive(s1) || !b || (c.op.Test? && !s1.r.replaced) then None else Some(c.op.jump)
  }

  lemma NewNextLog(env: Env, prog: seq<Cmd>, pc: nat, s: State)
    requires |s.inMatch| == |prog| && pc < |prog| && Alive(s)
    ensures var t := NewNext(env, prog, pc, s);
            t.r.status != Fatal ==> t.Log() == s.Log() + RangedBetween(prog, pc + 1, |prog|)
  {
    UpdateRangesLog(env, prog, pc + 1, |prog|, s.(r := s.r.(patt := "")));
  }

  lemma InRangeLog(env: Env, prog: seq<Cmd>, pc: nat, s: State, base: seq<int>)
    requires |s.inMatch| == |prog| && pc < |prog| && s.Log() == base + RangedBetween(prog, 0, pc)
    ensures Ranged(prog[pc]) ==> InRange(env, prog[pc], pc, s).1.Log() == base + RangedBetween(prog, 0, pc + 1)
    ensures !Ranged(prog[pc]) ==> s.Log() == base + RangedBetween(prog, 0, pc + 1)
  {
    InRangeNumber(env, prog[pc], pc, s);
    RangedOne(prog, pc);
    RangedSplit(prog, 0, pc, pc + 1);
    var first := if Ranged(prog[pc]) then [pc] else [];
    Assoc(base, RangedBetween(prog, 0, pc), first);
    assert RangedBetween(prog, 0, pc) + [] == RangedBetween(prog, 0, pc);
  }

  lemma UnrangedNext(prog: seq<Cmd>, a: nat)
    requires a < |prog| && !Ranged(prog[a])
    ensures RangedBetween(prog, 0, a + 1) == RangedBetween(prog, 0, a)
  {
    RangedSplit(prog, 0, a, a + 1);
    RangedOne(prog, a);
  }

  lemma {:induction false} RangedMember(prog: seq<Cmd>, a: nat, b: nat, k: nat)
    requires b <= |prog| && k < |prog| && Ranged(prog[k])
    ensures k in RangedBetween(prog, a, b) <==> a <= k < b
    decreases b - a
  {
    if a < b { RangedMember(prog, a + 1, b, k); }
  }

  lemma RestLog(prog: seq<Cmd>, base: seq<int>, a: nat, b: nat)
    requires a <= b <= |prog|
    ensures (base + RangedBetween(prog, 0, a)) + RangedBetween(prog, a, b) == base + RangedBetween(prog, 0, b)
  {
    RangedSplit(prog, 0, a, b);
    Assoc(base, RangedBetween(prog, 0, a), RangedBetween(prog, a, b));
  }

  /** A step that takes no branch, that opens or skips a block, or that ends the
      cycle, keeps the record on track: also the commands skipped had their
      range consulted once. */
  lemma StepOnTrack(env: Env, prog: seq<Cmd>, pc: nat, s: State, base: seq<int>)
    requires |s.inMatch| == |prog| && pc < |prog| && JumpsInside(prog) && Alive(s)
    requires s.Log() == base + RangedBetween(prog, 0, pc)
    requires Taken(env, prog, pc, s) == None
    ensures var (p, t) := Step(env, prog, pc, s);
            0 <= p < |prog| && (t.r.status != Fatal ==> OnTrack(prog, base, p, t.Log()))
  {
    PcInside(env, prog, pc, s);
    InRangeLog(env, prog, pc, s, base);
    if prog[pc].op.Last? {
      LastOnTrack(env, prog, pc, s, base);
    } else if Ranged(prog[pc]) {
      RangedOnTrack(env, prog, pc, s, base);
    }
  }

  lemma LastOnTrack(env: Env, prog: seq<Cmd>, pc: nat, s: State, base: seq<int>)
    requires |s.inMatch| == |prog| && pc < |prog| && JumpsInside(prog) && Alive(s) && prog[pc].op.Last?
    requires s.Log() == base + RangedBetween(prog, 0, pc + 1)
    ensures var (p, t) := Step(env, prog, pc, s);
            p == 0 && (t.r.status != Fatal ==> OnTrack(prog, base, 0, t.Log()))
  {
    NewNextLog(env, prog, pc, s.(r := DoWrites(AutoPrint(env.quiet, s.r))));
    RestLog(prog, base, pc + 1, |prog|);
  }

  lemma RangedOnTrack(env: Env, prog: seq<Cmd>, pc: nat, s: State, base: seq<int>)
    requires |s.inMatch| == |prog| && pc < |prog| && JumpsInside(prog) && Alive(s) && Ranged(prog[pc]) &&
             !prog[pc].op.Last?
    requires InRange(env, prog[pc], pc, s).1.Log() == base + RangedBetween(prog, 0, pc + 1)
    requires Taken(env, prog, pc, s) == None
    ensures var (p, t) := Step(env, prog, pc, s);
            0 <= p < |prog| && (t.r.status != Fatal ==> OnTrack(prog, base, p, t.Log()))
  {
    PcInside(env, prog, pc, s);
    var (b, s1) := InRange(env, prog[pc], pc, s);
    if Alive(s1) { AfterRangeOnTrack(env, prog, pc, b, s1, base); }
  }

  lemma AfterRangeOnTrack(env: Env, prog: seq<Cmd>, pc: nat, b: bool, s1: State, base: seq<int>)
    requires |s1.inMatch| == |prog| && pc < |prog| && JumpsInside(prog) && Alive(s1) && Ranged(prog[pc])
    requires s1.Log() == base + RangedBetween(prog, 0, pc + 1)
    requires b ==> !prog[pc].op.Branch? && (prog[pc].op.Test? ==> !s1.r.replaced)
    ensures var (p, t) := AfterRange(env, prog, pc, b, s1);
            t.r.status != Fatal ==> 0 <= p + 1 <= |prog| && OnTrack(prog, base, p + 1, t.Log())
  {
    var op := prog[pc].op;
    if op.Open? && !b {
      SkipBlockOnTrack(env, prog, pc, s1, base);
    } else if b && (op.Delete? || op.DeleteFirst? || op.Change?) {
      EndOnTrack(env, prog, pc, s1, base);
    } else {
      GoesOn(env, prog, pc, b, s1);
    }
  }

  lemma GoesOn(env: Env, prog: seq<Cmd>, pc: nat, b: bool, s1: State)
    requires |s1.inMatch| == |prog| && pc < |prog| && JumpsInside(prog) && Ranged(prog[pc])
    requires b ==> !prog[pc].op.Branch? && (prog[pc].op.Test? ==> !s1.r.replaced)
    requires if b then !prog[pc].op.Delete? && !prog[pc].op.DeleteFirst? && !prog[pc].op.Change? else !prog[pc].op.Open?
    ensures var (p, t) := AfterRange(env, prog, pc, b, s1); p == pc && t.Log() == s1.Log()
  {
  }

  lemma SkipBlockOnTrack(env: Env, prog: seq<Cmd>, pc: nat, s1: State, base: seq<int>)
    requires |s1.inMatch| == |prog| && pc < |prog| && JumpsInside(prog) && Alive(s1) && prog[pc].op.Open?
    requires s1.Log() == base + RangedBetween(prog, 0, pc + 1)
    ensures var (p, t) := AfterRange(env, prog, pc, false, s1);
            0 <= p < |prog| - 1 && (t.r.status != Fatal ==> OnTrack(prog, base, p + 1, t.Log()))
  {
    assert JumpOk(prog, pc);
    var off := prog[pc].op.offset;
    UpdateRangesLog(env, prog, pc + 1, off, s1);
    RestLog(prog, base, pc + 1, off);
    UnrangedNext(prog, off);
  }

  /** d, D and c: the rest of the program has its ranges consulted. */
  lemma EndOnTrack(env: Env, prog: seq<Cmd>, pc: nat, s1: State, base: seq<int>)
    requires |s1.inMatch| == |prog| && pc < |prog| && JumpsInside(prog) && Alive(s1)
    requires prog[pc].op.Delete? || prog[pc].op.DeleteFirst? || prog[pc].op.Change?
    requires s1.Log() == base + RangedBetween(prog, 0, pc + 1)
    ensures var (p, t) := AfterRange(env, prog, pc, true, s1);
            p == START && (t.r.status != Fatal ==> OnTrack(prog, base, 0, t.Log()))
  {
    RestLog(prog, base, pc + 1, |prog|);
    match prog[pc].op
    case Change(text) =>
      NewNextLog(env, prog, pc, if !s1.inMatch[pc] then s1.(r := s1.r.(out := s1.r.out + [text])) else s1);
    case DeleteFirst =>
      var n := FirstNewline(s1.r.patt);
      if n < |s1.r.patt| {
        UpdateRangesLog(env, prog, pc + 1, |prog|, s1.(r := s1.r.(patt := s1.r.patt[n + 1..])));
      } else {
        NewNextLog(env, prog, pc, s1);
      }
    case _ => NewNextLog(env, prog, pc, s1);
  }

  lemma LogsDiffer(prog: seq<Cmd>, base: seq<int>, a: nat, b: nat, k: int)
    requires a <= |prog| && b <= |prog|
    requires k in RangedBetween(prog, 0, a) && k !in RangedBetween(prog, 0, b)
    ensures base + RangedBetween(prog, 0, a) != base + RangedBetween(prog, 0, b)
  {
    var x, y := base + RangedBetween(prog, 0, a), base + RangedBetween(prog, 0, b);
    assert x[|base|..] == RangedBetween(prog, 0, a) && y[|base|..] == RangedBetween(prog, 0, b);
  }

  lemma TakenStep(env: Env, prog: seq<Cmd>, pc: nat, s: State, jump: nat)
    requires |s.inMatch| == |prog| && pc < |prog| && JumpsInside(prog)
    requires jump < |prog| && Taken(env, prog, pc, s) == Some(jump)
    ensures var (p, t) := Step(env, prog, pc, s);
            var s1 := InRange(env, prog[pc], pc, s).1;
            var u := UpdateRanges(env, prog, pc + 1, if jump > pc then jump else |prog|, s1);
            && Ranged(prog[pc]) && Alive(s1)
            && p == jump + 1 && t.Log() == u.Log() && t.r.status == u.r.status
  {
  }

  /** A branch at pc forward to a command without addresses, or, without a
      label, in the last addressed command of the script. */
  ghost predicate Tidy(prog: seq<Cmd>, pc: nat, jump: nat)
    requires pc < |prog| && jump < |prog|
  {
    if jump > pc then !Ranged(prog[jump])
    else jump == pc && forall k :: pc < k < |prog| ==> !Ranged(prog[k])
  }

  lemma ForwardOrBack(prog: seq<Cmd>, base: seq<int>, pc: nat, jump: nat)
    requires pc < |prog| && jump < |prog| && Ranged(prog[pc])
    ensures OnTrack(prog, base, jump + 1, base + RangedBetween(prog, 0, if jump > pc then jump else |prog|))
            <==> Tidy(prog, pc, jump)
  {
    if jump > pc {
      ForwardCase(prog, base, jump);
    } else if Tidy(prog, pc, jump) {
      NothingAfter(prog, pc + 1);
    } else {
      var k :| jump < k < |prog| && Ranged(prog[k]);
      BackCase(prog, base, jump, k);
    }
  }

  lemma ForwardCase(prog: seq<Cmd>, base: seq<int>, jump: nat)
    requires jump < |prog|
    ensures base + RangedBetween(prog, 0, jump + 1) == base + RangedBetween(prog, 0, jump) <==> !Ranged(prog[jump])
  {
    if Ranged(prog[jump]) {
      RangedMember(prog, 0, jump, jump);
      RangedMember(prog, 0, jump + 1, jump);
      LogsDiffer(prog, base, jump + 1, jump, jump);
    } else {
      UnrangedNext(prog, jump);
    }
  }

  lemma NothingAfter(prog: seq<Cmd>, a: nat)
    requires a <= |prog| && forall k :: a <= k < |prog| ==> !Ranged(prog[k])
    ensures RangedBetween(prog, 0, a) == RangedBetween(prog, 0, |prog|)
  {
    RangedSplit(prog, 0, a, |prog|);
    NoneRanged(prog, a);
  }

  lemma BackCase(prog: seq<Cmd>, base: seq<int>, jump: nat, k: nat)
    requires jump < k < |prog| && Ranged(prog[k])
    ensures base + RangedBetween(prog, 0, |prog|) != base + RangedBetween(prog, 0, jump + 1)
  {
    RangedMember(prog, 0, |prog|, k);
    RangedMember(prog, 0, jump + 1, k);
    LogsDiffer(prog, base, |prog|, jump + 1, k);
  }

  lemma {:induction false} NoneRanged(prog: seq<Cmd>, a: nat)
    requires a <= |prog| && forall k :: a <= k < |prog| ==> !Ranged(prog[k])
    ensures RangedBetween(prog, a, |prog|) == []
    decreases |prog| - a
  {
    if a < |prog| { NoneRanged(prog, a + 1); }
  }

  /** A branch taken keeps the record on track if and only if it is tidy.
      Backwards, commands will be consulted again; forward to an addressed
      command, that command is passed over. */
  lemma BranchOnTrackIff(env: Env, prog: seq<Cmd>, pc: nat, s: State, base: seq<int>, jump: nat)
    requires |s.inMatch| == |prog| && pc < |prog| && JumpsInside(prog) && Alive(s)
    requires s.Log() == base + RangedBetween(prog, 0, pc)
    requires jump + 1 < |prog| && Taken(env, prog, pc, s) == Some(jump)
    ensures var (p, t) := Step(env, prog, pc, s);
            p == jump + 1 &&
            (t.r.status != Fatal ==> (OnTrack(prog, base, jump + 1, t.Log()) <==> Tidy(prog, pc, jump)))
  {
    var s1 := InRange(env, prog[pc], pc, s).1;
    TakenStep(env, prog, pc, s, jump);
    InRangeLog(env, prog, pc, s, base);
    JumpOnTrackIff(env, prog, pc, jump, s1, base);
  }

  lemma JumpOnTrackIff(env: Env, prog: seq<Cmd>, pc: nat, jump: nat, s1: State, base: seq<int>)
    requires |s1.inMatch| == |prog| && pc < |prog| && jump < |prog| && Alive(s1) && Ranged(prog[pc])
    requires s1.Log() == base + RangedBetween(prog, 0, pc + 1)
    ensures var u := UpdateRanges(env, prog, pc + 1, if jump > pc then jump else |prog|, s1);
            u.r.status != Fatal ==> (OnTrack(prog, base, jump + 1, u.Log()) <==> Tidy(prog, pc, jump))
  {
    JumpLog(env, prog, pc, jump, s1, base);
    ForwardOrBack(prog, base, pc, jump);
  }

  lemma JumpLog(env: Env, prog: seq<Cmd>, pc: nat, jump: nat, s1: State, base: seq<int>)
    requires |s1.inMatch| == |prog| && pc < |prog| && jump < |prog| && Alive(s1)
    requires s1.Log() == base + RangedBetween(prog, 0, pc + 1)
    ensures var end := if jump > pc then jump else |prog|;
            var u := UpdateRanges(env, prog, pc + 1, end, s1);
            u.r.status != Fatal ==> u.Log() == base + RangedBetween(prog, 0, end)
  {
    var end := if jump > pc then jump else |prog|;
    UpdateRangesLog(env, prog, pc + 1, end, s1);
    RestLog(prog, base, pc + 1, end);
  }

  ghost predicate TidyProgram(prog: seq<Cmd>) {
    forall i :: 0 <= i < |prog| && (prog[i].op.Branch? || prog[i].op.Test?) ==>
                  0 <= prog[i].op.jump < |prog| && Tidy(prog, i, prog[i].op.jump)
  }

  /** The record `base` followed by that of whole cycles. */
  function WholeCycles(prog: seq<Cmd>, base: seq<int>, cycles: nat): seq<int> {
    if cycles == 0 then base else WholeCycles(prog, base, cycles - 1) + RangedBetween(prog, 0, |prog|)
  }

  /** One turn of the loop while sed goes on.  Outside the program, or without a
      range bit for every command, anything could come of it. */
  ghost predicate Turn(env: Env, prog: seq<Cmd>, p: int, s: State, p': int, s': State)
    requires JumpsInside(prog)
  {
    Alive(s) && (|s.inMatch| == |prog| && 0 <= p < |prog| ==> Step(env, prog, p, s) == (p', s'))
  }

  /** A run: the program counters and states before each turn. */
  ghost predicate IsRun(env: Env, prog: seq<Cmd>, ps: seq<int>, ss: seq<State>) {
    && JumpsInside(prog)
    && |ps| == |ss| > 0 && ps[0] == 0 && |ss[0].inMatch| == |prog|
    && forall i {:trigger ps[i]} :: 0 < i < |ps| ==> Turn(env, prog, ps[i - 1], ss[i - 1], ps[i], ss[i])
  }

  /** On every run, whatever the script branches on, the program counter stays
      inside the program. */
  lemma {:induction false} RunInside(env: Env, prog: seq<Cmd>, ps: seq<int>, ss: seq<State>, n: nat)
    requires IsRun(env, prog, ps, ss) && n < |ps|
    ensures 0 <= ps[n] < |prog| && |ss[n].inMatch| == |prog|
    decreases n
  {
    if n > 0 {
      RunInside(env, prog, ps, ss, n - 1);
      assert Turn(env, prog, ps[n - 1], ss[n - 1], ps[n], ss[n]);
      PcInside(env, prog, ps[n - 1], ss[n - 1]);
    }
  }

  /** How often a run has come back to the first command: the number of cycles it
      has completed. */
  function Returns(ps: seq<int>, n: nat): nat
    requires n < |ps|
  {
    if n == 0 then 0 else Returns(ps, n - 1) + if ps[n] == 0 then 1 else 0
  }

  /** Whole cycles and the part of the present one. */
  ghost predicate Recorded(prog: seq<Cmd>, base: seq<int>, cycles: nat, p: int, s: State) {
    0 <= p < |prog| && |s.inMatch| == |prog| && s.Log() == WholeCycles(prog, base, cycles) + RangedBetween(prog, 0, p)
  }

  /** On every run of a program with tidy branches only, the record at any moment
      is that of exactly the cycles completed, each with every addressed command
      once and in order, followed by the part of the present cycle. */
  lemma {:induction false} RunOnTrack(env: Env, prog: seq<Cmd>, ps: seq<int>, ss: seq<State>, n: nat)
    requires TidyProgram(prog) && IsRun(env, prog, ps, ss) && n < |ps|
    requires ss[n].r.status != Fatal
    ensures Recorded(prog, ss[0].Log(), Returns(ps, n), ps[n], ss[n])
    decreases n
  {
    if n == 0 {
      assert ss[0].Log() + [] == ss[0].Log();
    } else {
      assert Turn(env, prog, ps[n - 1], ss[n - 1], ps[n], ss[n]);
      RunOnTrack(env, prog, ps, ss, n - 1);
      TidyTurn(env, prog, ps[n - 1], ss[n - 1], ps[n], ss[n], ss[0].Log(), Returns(ps, n - 1));
    }
  }

  lemma TidyTurn(env: Env, prog: seq<Cmd>, p: int, s: State, p': int, s': State, base: seq<int>, c: nat)
    requires JumpsInside(prog) && TidyProgram(prog) && Turn(env, prog, p, s, p', s')
    requires Recorded(prog, base, c, p, s) && s'.r.status != Fatal
    ensures Recorded(prog, base, if p' == 0 then c + 1 else c, p', s')
  {
    StepTidy(env, prog, p, s, WholeCycles(prog, base, c));
    StartsAgain(prog, WholeCycles(prog, base, c));
  }

  lemma StepTidy(env: Env, prog: seq<Cmd>, p: nat, s: State, before: seq<int>)
    requires JumpsInside(prog) && TidyProgram(prog) && p < |prog| && |s.inMatch| == |prog| && Alive(s)
    requires s.Log() == before + RangedBetween(prog, 0, p)
    ensures var (p', t) := Step(env, prog, p, s);
            0 <= p' < |prog| && (t.r.status != Fatal ==> OnTrack(prog, before, p', t.Log()))
  {
    if Taken(env, prog, p, s).None? {
      StepOnTrack(env, prog, p, s, before);
    } else {
      assert JumpOk(prog, p);
      BranchOnTrackIff(env, prog, p, s, before, prog[p].op.jump);
    }
  }

  lemma StartsAgain(prog: seq<Cmd>, base: seq<int>)
    ensures var all := base + RangedBetween(prog, 0, |prog|); all == all + RangedBetween(prog, 0, 0)
  {
  }

  lemma CountPlus(a: seq<int>, b: seq<int>, k: int)
    ensures multiset(a + b)[k] == multiset(a)[k] + multiset(b)[k]
  {
    assert multiset(a + b) == multiset(a) + multiset(b);
  }

  lemma {:induction false} RangedOnce(prog: seq<Cmd>, a: nat, b: nat, k: nat)
    requires b <= |prog| && k < |prog| && Ranged(prog[k])
    ensures multiset(RangedBetween(prog, a, b))[k] == if a <= k < b then 1 else 0
    decreases b - a
  {
    if a < b {
      RangedOnce(prog, a + 1, b, k);
      CountPlus(if Ranged(prog[a]) then [a] else [], RangedBetween(prog, a + 1, b), k);
      assert multiset([a])[k] == if a == k then 1 else 0;
    }
  }

  lemma {:induction false} CyclesCount(prog: seq<Cmd>, base: seq<int>, cycles: nat, k: nat)
    requires k < |prog| && Ranged(prog[k])
    ensures multiset(WholeCycles(prog, base, cycles))[k] == multiset(base)[k] + cycles
    decreases cycles
  {
    if cycles > 0 {
      CyclesCount(prog, base, cycles - 1, k);
      RangedOnce(prog, 0, |prog|, k);
      CountPlus(WholeCycles(prog, base, cycles - 1), RangedBetween(prog, 0, |prog|), k);
    }
  }

  /** An addressed command has been consulted once in each cycle, and once more if
      the present cycle is past it. */
  lemma RecordedCount(prog: seq<Cmd>, base: seq<int>, cycles: nat, p: int, s: State, k: nat)
    requires Recorded(prog, base, cycles, p, s) && k < |prog| && Ranged(prog[k])
    ensures multiset(s.Log())[k] == multiset(base)[k] + cycles + if k < p then 1 else 0
  {
    CyclesCount(prog, base, cycles, k);
    RangedOnce(prog, 0, p, k);
    CountPlus(WholeCycles(prog, base, cycles), RangedBetween(prog, 0, p), k);
  }
}

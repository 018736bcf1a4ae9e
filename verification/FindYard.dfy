/** The shunting-yard conversion and the tree builder of find's `parse`, as
    functions, with the proof that together they accept only the grammar of
    FindSyntax and build its trees. */
module FindYard {
  import opened Basics
  import opened FindSyntax
  import opened Stacks

  /** Output in reverse polish notation, and the operator stack. */
  datatype Yard = Yard(out: seq<Token>, ops: Stack<Token>)

  /** Whether an operator t being read sends the stacked operator `top` to the
      output first. */
  predicate Yields(t: Token, top: Token) {
    if IsBinary(t) then Prec(t) <= Prec(top) else Prec(t) < Prec(top)
  }

  function PopFor(out: seq<Token>, ops: Stack<Token>, t: Token): Yard
    decreases ops
  {
    match ops
    case Empty => Yard(out, ops)
    case Push(top, rest) => if Yields(t, top) then PopFor(out + [top], rest, t) else Yard(out, ops)
  }

  /** Sends operators to the output down to the nearest `(`, or all of them. */
  function PopToParen(out: seq<Token>, ops: Stack<Token>): Yard
    decreases ops
  {
    match ops
    case Empty => Yard(out, ops)
    case Push(top, rest) => if top == LPar then Yard(out, ops) else PopToParen(out + [top], rest)
  }

  function Step(y: Yard, t: Token): Result<Yard> {
    match t
    case Prim(_) => Ok(y.(out := y.out + [t]))
    case LPar => Ok(y.(ops := Push(t, y.ops)))
    case RPar =>
      var z := PopToParen(y.out, y.ops);
      if z.ops == Empty then Err(ExtraRPar) else Ok(z.(ops := z.ops.rest))
    case _ =>
      var z := PopFor(y.out, y.ops, t);
      Ok(z.(ops := Push(t, z.ops)))
  }

  function Run(y: Yard, ts: seq<Token>): Result<Yard>
    decreases |ts|
  {
    if ts == [] then Ok(y)
    else
      match Step(y, ts[0])
      case Err(e) => Err(e)
      case Ok(z) => Run(z, ts[1..])
  }

  /** The end of the input: every remaining operator goes to the output. */
  function Drain(y: Yard): Result<seq<Token>> {
    var z := PopToParen(y.out, y.ops);
    if z.ops == Empty then Ok(z.out) else Err(ExtraLPar)
  }

  function ToRpn(infix: seq<Token>): Result<seq<Token>> {
    match Run(Yard([], Empty), infix)
    case Err(e) => Err(e)
    case Ok(y) => Drain(y)
  }

  /** Connects one token of the output to its operands. */
  function Attach(s: Stack<Expr>, t: Token): Result<Stack<Expr>> {
    match t
    case Prim(p) => Ok(Push(EPrim(p), s))
    case Not => if s == Empty then Err(InsufficientArguments(t)) else Ok(Push(ENot(s.top), s.rest))
    case And =>
      if s == Empty || s.rest == Empty then Err(InsufficientArguments(t))
      else Ok(Push(EAnd(s.rest.top, s.top), s.rest.rest))
    case Or =>
      if s == Empty || s.rest == Empty then Err(InsufficientArguments(t))
      else Ok(Push(EOr(s.rest.top, s.top), s.rest.rest))
    case _ => Err(InsufficientArguments(t))
  }

  function Build(rpn: seq<Token>, s: Stack<Expr>): Result<Stack<Expr>>
    decreases |rpn|
  {
    if rpn == [] then Ok(s)
    else
      match Attach(s, rpn[0])
      case Err(e) => Err(e)
      case Ok(z) => Build(rpn[1..], z)
  }

  function ToTree(rpn: seq<Token>): Result<Expr> {
    match Build(rpn, Empty)
    case Err(e) => Err(e)
    case Ok(s) => if s.Push? && s.rest == Empty then Ok(s.top) else Err(ExtraArguments)
  }

  // ------------------------------------------------------- basic algebra

  lemma {:induction false} RunAppend(y: Yard, a: seq<Token>, b: seq<Token>)
    ensures Run(y, a + b) == match Run(y, a) { case Err(e) => Err(e) case Ok(z) => Run(z, b) }
    decreases |a|
  {
    if a == [] {
      assert a + b == b;
    } else {
      assert (a + b)[1..] == a[1..] + b;
      match Step(y, a[0])
      case Err(_) =>
      case Ok(z) => RunAppend(z, a[1..], b);
    }
  }

  lemma RunOne(y: Yard, t: Token)
    ensures Run(y, [t]) == Step(y, t)
  {
    assert [t][1..] == [];
  }

  lemma RunTwo(y: Yard, t: Token, u: Token)
    requires Step(y, t).Ok?
    ensures Run(y, [t, u]) == Step(Step(y, t).value, u)
  {
    assert [t, u][1..] == [u];
    RunOne(Step(y, t).value, u);
  }

  lemma {:induction false} BuildAppend(a: seq<Token>, b: seq<Token>, s: Stack<Expr>)
    ensures Build(a + b, s) == match Build(a, s) { case Err(e) => Err(e) case Ok(z) => Build(b, z) }
    decreases |a|
  {
    if a == [] {
      assert a + b == b;
    } else {
      assert (a + b)[1..] == a[1..] + b;
      match Attach(s, a[0])
      case Err(_) =>
      case Ok(z) => BuildAppend(a[1..], b, z);
    }
  }

  lemma BuildSnoc(a: seq<Token>, t: Token, s: Stack<Expr>)
    requires Build(a, s).Ok?
    ensures Build(a + [t], s) == Attach(Build(a, s).value, t)
  {
    BuildAppend(a, [t], s);
    assert [t][1..] == [];
  }

  // ------------------------------------------------- counting operands

  function Weight(t: Token): int {
    if t.Prim? then 1 else if IsBinary(t) then -1 else 0
  }

  /** Operands minus binary operators. */
  function Net(ts: seq<Token>): int {
    if ts == [] then 0 else Net(ts[..|ts| - 1]) + Weight(ts[|ts| - 1])
  }

  function NetOps(s: Stack<Token>): int {
    match s
    case Empty => 0
    case Push(top, rest) => Weight(top) + NetOps(rest)
  }

  lemma {:induction false} NetAppend(a: seq<Token>, b: seq<Token>)
    ensures Net(a + b) == Net(a) + Net(b)
    decreases |b|
  {
    if b == [] {
      assert a + b == a;
    } else {
      assert (a + b)[..|a + b| - 1] == a + b[..|b| - 1];
      NetAppend(a, b[..|b| - 1]);
    }
  }

  lemma NetSnoc(a: seq<Token>, t: Token)
    ensures Net(a + [t]) == Net(a) + Weight(t)
  {
    assert (a + [t])[..|a|] == a;
  }

  lemma NetCons(ts: seq<Token>)
    requires ts != []
    ensures Net(ts) == Weight(ts[0]) + Net(ts[1..])
  {
    assert ts == [ts[0]] + ts[1..];
    NetAppend([ts[0]], ts[1..]);
    assert [ts[0]] == [] + [ts[0]];
    NetSnoc([], ts[0]);
  }

  /** Every operand makes the stack one deeper, every binary operator one
      shallower. */
  lemma {:induction false} BuildDepth(rpn: seq<Token>, s: Stack<Expr>)
    requires Build(rpn, s).Ok?
    ensures Depth(Build(rpn, s).value) == Depth(s) + Net(rpn)
    decreases |rpn|
  {
    if rpn != [] {
      BuildDepth(rpn[1..], Attach(s, rpn[0]).value);
      NetCons(rpn);
    }
  }

  function YardNet(y: Yard): int { Net(y.out) + NetOps(y.ops) }

  lemma {:induction false} PopForNet(out: seq<Token>, ops: Stack<Token>, t: Token)
    ensures YardNet(PopFor(out, ops, t)) == Net(out) + NetOps(ops)
    decreases ops
  {
    if ops.Push? && Yields(t, ops.top) {
      NetSnoc(out, ops.top);
      PopForNet(out + [ops.top], ops.rest, t);
    }
  }

  lemma {:induction false} PopToParenNet(out: seq<Token>, ops: Stack<Token>)
    ensures YardNet(PopToParen(out, ops)) == Net(out) + NetOps(ops)
    ensures PopToParen(out, ops).ops.Push? ==> PopToParen(out, ops).ops.top == LPar
    decreases ops
  {
    if ops.Push? && ops.top != LPar {
      NetSnoc(out, ops.top);
      PopToParenNet(out + [ops.top], ops.rest);
    }
  }

  lemma StepNet(y: Yard, t: Token)
    requires Step(y, t).Ok?
    ensures YardNet(Step(y, t).value) == YardNet(y) + Weight(t)
  {
    match t
    case Prim(_) => NetSnoc(y.out, t);
    case LPar =>
    case RPar => PopToParenNet(y.out, y.ops);
    case _ => PopForNet(y.out, y.ops, t);
  }

  /** The conversion loses and invents nothing: the output has as many operands
      and binary operators as went in. */
  lemma {:induction false} RunNet(y: Yard, ts: seq<Token>)
    requires Run(y, ts).Ok?
    ensures YardNet(Run(y, ts).value) == YardNet(y) + Net(ts)
    decreases |ts|
  {
    if ts != [] {
      StepNet(y, ts[0]);
      RunNet(Step(y, ts[0]).value, ts[1..]);
      NetCons(ts);
    }
  }

  lemma DrainNet(y: Yard)
    requires Drain(y).Ok?
    ensures Net(Drain(y).value) == YardNet(y)
  {
    PopToParenNet(y.out, y.ops);
  }

  function Have(last: Last): nat { if HaveOperand(last) then 1 else 0 }

  /** However the items are arranged, with `-a` inserted there is at most one
      more operand than there are binary operators. */
  lemma {:induction false} NetOfInfix(last: Last, items: seq<Token>)
    ensures Net(InsertAnds(last, items)) + Have(last) <= 1
    decreases |items|
  {
    if items != [] {
      var t, rest := items[0], items[1..];
      NetOfInfix(After(t), rest);
      NetAppend(WithAnd(last, t), InsertAnds(After(t), rest));
      NetCons(WithAnd(last, t));
      if NeedsAnd(last, t) {
        assert [And, t][1..] == [t];
        NetCons([t]);
      }
    }
  }

  // ------------------------------------------------------ pending frames

  /** What an entry of the operator stack stands for in the grammar: the part of
      a tree that has been read, waiting for its last operand. */
  datatype Frame = FParen | FNeg | FConj(l: Cst, written: bool) | FDisj(l: Cst)

  function FrameOp(f: Frame): Token {
    match f
    case FParen => LPar
    case FNeg => Not
    case FConj(_, _) => And
    case FDisj(_) => Or
  }

  function FrameItems(f: Frame): seq<Token> {
    match f
    case FParen => [LPar]
    case FNeg => [Not]
    case FConj(l, written) => Yield(l) + (if written then [And] else [])
    case FDisj(l) => Yield(l) + [Or]
  }

  function Ops(fs: Stack<Frame>): Stack<Token> {
    match fs
    case Empty => Empty
    case Push(f, rest) => Push(FrameOp(f), Ops(rest))
  }

  function FramesItems(fs: Stack<Frame>): seq<Token> {
    match fs
    case Empty => []
    case Push(f, rest) => FramesItems(rest) + FrameItems(f)
  }

  /** The operands already complete, which the output evaluates to. */
  function FramesTrees(fs: Stack<Frame>): Stack<Expr> {
    match fs
    case Empty => Empty
    case Push(f, rest) =>
      if f.FConj? || f.FDisj? then Push(Tree(f.l), FramesTrees(rest)) else FramesTrees(rest)
  }

  function TopPrec(fs: Stack<Frame>): nat {
    if fs == Empty then 0 else Prec(FrameOp(fs.top))
  }

  predicate FrameWf(f: Frame) {
    match f
    case FConj(l, _) => Wf(l) && Level(l) >= 2
    case FDisj(l) => Wf(l)
    case _ => true
  }

  /** Well-formed frames; the precedences inside one pair of parentheses rise
      strictly, except that `!` may be stacked on `!`. */
  predicate FramesOk(fs: Stack<Frame>) {
    match fs
    case Empty => true
    case Push(f, rest) =>
      FrameWf(f) && FramesOk(rest) && (IsBinary(FrameOp(f)) ==> TopPrec(rest) < Prec(FrameOp(f)))
  }

  /** The lowest grammar level the top frame takes as its last operand. */
  function Wants(fs: Stack<Frame>): nat {
    match fs
    case Empty => 0
    case Push(FParen, _) => 0
    case Push(FNeg, _) => 3
    case Push(FConj(_, _), _) => 3
    case Push(FDisj(_), _) => 2
  }

  /** Completes the frame f with its last operand. */
  function Close(f: Frame, c: Cst): Cst {
    match f
    case FParen => Paren(c)
    case FNeg => Neg(c)
    case FConj(l, written) => Conj(l, written, c)
    case FDisj(l) => Disj(l, c)
  }

  /** The yard after reading `pre`, with an operand c just completed: frames and
      operand spell out `pre`, and the output evaluates to their trees. */
  ghost predicate HoldsOperand(pre: seq<Token>, y: Yard, fs: Stack<Frame>, c: Cst) {
    && FramesOk(fs) && Wf(c) && Level(c) >= Wants(fs)
    && y.ops == Ops(fs)
    && Build(y.out, Empty) == Ok(Push(Tree(c), FramesTrees(fs)))
    && pre == FramesItems(fs) + Yield(c)
  }

  /** The yard after reading `pre`, with an operand expected next. */
  ghost predicate WantsOperand(pre: seq<Token>, y: Yard, fs: Stack<Frame>) {
    && FramesOk(fs)
    && y.ops == Ops(fs)
    && Build(y.out, Empty) == Ok(FramesTrees(fs))
    && pre == FramesItems(fs)
  }

  lemma CloseFrame(pre: seq<Token>, y: Yard, fs: Stack<Frame>, c: Cst)
    requires HoldsOperand(pre, y, fs, c)
    requires fs.Push? && fs.top != FParen
    ensures HoldsOperand(pre, Yard(y.out + [y.ops.top], y.ops.rest), fs.rest, Close(fs.top, c))
    ensures Level(Close(fs.top, c)) == TopPrec(fs)
  {
    CloseBuild(y.out, fs.top, fs.rest, c);
    CloseItems(fs.top, fs.rest, c);
  }

  lemma CloseBuild(out: seq<Token>, f: Frame, rest: Stack<Frame>, c: Cst)
    requires f != FParen && Build(out, Empty) == Ok(Push(Tree(c), FramesTrees(Push(f, rest))))
    ensures Build(out + [FrameOp(f)], Empty) == Ok(Push(Tree(Close(f, c)), FramesTrees(rest)))
  {
    BuildSnoc(out, FrameOp(f), Empty);
  }

  lemma CloseItems(f: Frame, rest: Stack<Frame>, c: Cst)
    ensures f != FParen ==> FramesItems(Push(f, rest)) + Yield(c) == FramesItems(rest) + Yield(Close(f, c))
    ensures f == FParen ==> FramesItems(Push(f, rest)) + Yield(c) + [RPar] == FramesItems(rest) + Yield(Close(f, c))
  {
    Assoc(FramesItems(rest), FrameItems(f), Yield(c));
    Assoc(FramesItems(rest), FrameItems(f) + Yield(c), [RPar]);
    CloseYield(f, c);
  }

  lemma CloseYield(f: Frame, c: Cst)
    ensures Yield(Close(f, c)) == FrameItems(f) + Yield(c) + if f == FParen then [RPar] else []
  {
    assert FrameItems(f) + Yield(c) + [] == FrameItems(f) + Yield(c);
  }

  lemma {:induction false} CollapseForOperator(pre: seq<Token>, y: Yard, fs: Stack<Frame>, c: Cst, t: Token)
    returns (gs: Stack<Frame>, d: Cst)
    requires HoldsOperand(pre, y, fs, c) && IsBinary(t) && Level(c) >= Prec(t)
    ensures HoldsOperand(pre, PopFor(y.out, y.ops, t), gs, d) && TopPrec(gs) < Prec(t) <= Level(d)
    decreases fs
  {
    if fs.Push? && TopPrec(fs) >= Prec(t) {
      CloseFrame(pre, y, fs, c);
      var z := Yard(y.out + [y.ops.top], y.ops.rest);
      gs, d := CollapseForOperator(pre, z, fs.rest, Close(fs.top, c), t);
    } else {
      gs, d := fs, c;
    }
  }

  lemma {:induction false} CollapseToParen(pre: seq<Token>, y: Yard, fs: Stack<Frame>, c: Cst)
    returns (gs: Stack<Frame>, d: Cst)
    requires HoldsOperand(pre, y, fs, c)
    ensures HoldsOperand(pre, PopToParen(y.out, y.ops), gs, d) && (gs.Push? ==> gs.top == FParen)
    decreases fs
  {
    if fs.Push? && fs.top != FParen {
      CloseFrame(pre, y, fs, c);
      gs, d := CollapseToParen(pre, Yard(y.out + [y.ops.top], y.ops.rest), fs.rest, Close(fs.top, c));
    } else {
      gs, d := fs, c;
    }
  }

  // ---------------------------------------------------------- soundness

  /** A closing parenthesis after an operand. */
  lemma ReadRPar(pre: seq<Token>, y: Yard, fs: Stack<Frame>, c: Cst)
    returns (z: Yard, gs: Stack<Frame>, d: Cst)
    requires HoldsOperand(pre, y, fs, c) && Step(y, RPar).Ok?
    ensures Step(y, RPar) == Ok(z)
    ensures HoldsOperand(pre + [RPar], z, gs, d) && Level(d) == 3
  {
    z := Step(y, RPar).value;
    var hs, e := CollapseToParen(pre, y, fs, c);
    gs, d := hs.rest, Paren(e);
    CloseItems(FParen, gs, e);
  }

  /** A binary operator, written or inserted, after an operand. */
  lemma ReadBinary(pre: seq<Token>, y: Yard, fs: Stack<Frame>, c: Cst, t: Token, written: bool)
    returns (z: Yard, gs: Stack<Frame>)
    requires HoldsOperand(pre, y, fs, c) && Level(c) == 3 && IsBinary(t) && (!written ==> t == And)
    ensures Step(y, t) == Ok(z)
    ensures WantsOperand(if written then pre + [t] else pre, z, gs)
  {
    var hs, e := CollapseForOperator(pre, y, fs, c, t);
    var f := if t == And then FConj(e, written) else FDisj(e);
    z, gs := Step(y, t).value, Push(f, hs);
    assert FrameItems(f) == Yield(e) + (if written then [t] else []);
    assert FramesItems(gs) == if written then pre + [t] else pre;
  }

  /** One item that begins an operand, read where one is expected. */
  lemma BeforeOperand(pre: seq<Token>, y: Yard, fs: Stack<Frame>, t: Token)
    returns (z: Yard, gs: Stack<Frame>, d: Cst)
    requires WantsOperand(pre, y, fs) && StartsOperand(t)
    ensures Step(y, t) == Ok(z)
    ensures t.Prim? ==> HoldsOperand(pre + [t], z, gs, d) && Level(d) == 3
    ensures !t.Prim? ==> WantsOperand(pre + [t], z, gs)
  {
    z := Step(y, t).value;
    if t.Prim? {
      gs, d := fs, Atom(t.p);
      BuildSnoc(y.out, t, Empty);
    } else {
      gs, d := Push(if t == Not then FNeg else FParen, fs), Atom(Primary("", []));
    }
  }

  /** One item read while an operand is held. */
  lemma AfterOperand(pre: seq<Token>, y: Yard, fs: Stack<Frame>, c: Cst, last: Last, t: Token)
    returns (z: Yard, gs: Stack<Frame>, d: Cst)
    requires HoldsOperand(pre, y, fs, c) && Level(c) == 3 && HaveOperand(last)
    requires Run(y, WithAnd(last, t)).Ok?
    ensures Run(y, WithAnd(last, t)) == Ok(z)
    ensures EndsOperand(t) ==> HoldsOperand(pre + [t], z, gs, d) && Level(d) == 3
    ensures !EndsOperand(t) ==> WantsOperand(pre + [t], z, gs)
  {
    RunOne(y, t);
    if t == RPar {
      z, gs, d := ReadRPar(pre, y, fs, c);
    } else if IsBinary(t) {
      z, gs := ReadBinary(pre, y, fs, c, t, true);
      d := c;
    } else {
      var y1, fs1 := ReadBinary(pre, y, fs, c, And, false);
      RunTwo(y, And, t);
      z, gs, d := BeforeOperand(pre, y1, fs1, t);
    }
  }

  ghost predicate Accepts(last: Last, rest: seq<Token>, y: Yard, e: Expr) {
    var r := Run(y, InsertAnds(last, rest));
    r.Ok? && Drain(r.value).Ok? && Build(Drain(r.value).value, Empty) == Ok(Push(e, Empty))
  }

  lemma AcceptsStep(last: Last, rest: seq<Token>, y: Yard, e: Expr)
    requires Accepts(last, rest, y, e) && rest != []
    ensures Run(y, WithAnd(last, rest[0])).Ok?
    ensures Accepts(After(rest[0]), rest[1..], Run(y, WithAnd(last, rest[0])).value, e)
  {
    RunAppend(y, WithAnd(last, rest[0]), InsertAnds(After(rest[0]), rest[1..]));
  }

  /** Once something stands where an operand was expected, the operators are in
      the majority for good, and the tree builder never ends with one tree. */
  lemma NoRecovery(last: Last, rest: seq<Token>, y: Yard, e: Expr)
    requires YardNet(y) < Have(last)
    ensures !Accepts(last, rest, y, e)
  {
    if Accepts(last, rest, y, e) {
      var infix := InsertAnds(last, rest);
      RunNet(y, infix);
      DrainNet(Run(y, infix).value);
      NetOfInfix(last, rest);
      BuildDepth(Drain(Run(y, infix).value).value, Empty);
      assert false;
    }
  }

  lemma {:induction false} OpsNet(fs: Stack<Frame>)
    ensures NetOps(Ops(fs)) + Depth(FramesTrees(fs)) == 0
    decreases fs
  {
    if fs.Push? { OpsNet(fs.rest); }
  }

  lemma Shift(pre: seq<Token>, rest: seq<Token>)
    requires rest != []
    ensures pre + rest == (pre + [rest[0]]) + rest[1..]
  {
  }

  /** What cannot begin an operand is not accepted where one is expected. */
  lemma NothingBegins(pre: seq<Token>, rest: seq<Token>, last: Last, y: Yard, fs: Stack<Frame>, e: Expr)
    requires WantsOperand(pre, y, fs) && !HaveOperand(last) && (rest == [] || !StartsOperand(rest[0]))
    ensures !Accepts(last, rest, y, e)
  {
    BuildDepth(y.out, Empty);
    OpsNet(fs);
    if Accepts(last, rest, y, e) {
      if rest == [] {
        DrainNet(y);
        BuildDepth(Drain(y).value, Empty);
        assert false;
      } else {
        AcceptsStep(last, rest, y, e);
        RunOne(y, rest[0]);
        StepNet(y, rest[0]);
        NoRecovery(After(rest[0]), rest[1..], Step(y, rest[0]).value, e);
        assert false;
      }
    }
  }

  /** If the rest of the items is accepted where an operand is expected, then
      all the items together are the yield of a tree, and it is the one built. */
  lemma {:induction false} SoundWanting(pre: seq<Token>, rest: seq<Token>, last: Last, y: Yard, fs: Stack<Frame>,
                                        e: Expr)
    returns (c: Cst)
    requires WantsOperand(pre, y, fs) && !HaveOperand(last) && Accepts(last, rest, y, e)
    ensures Wf(c) && Yield(c) == pre + rest && Tree(c) == e
    decreases |rest|
  {
    if rest == [] || !StartsOperand(rest[0]) {
      NothingBegins(pre, rest, last, y, fs, e);
      assert false;
    } else {
      var t := rest[0];
      AcceptsStep(last, rest, y, e);
      RunOne(y, t);
      Shift(pre, rest);
      var z, gs, d := BeforeOperand(pre, y, fs, t);
      if t.Prim? {
        c := SoundHolding(pre + [t], rest[1..], After(t), z, gs, d, e);
      } else {
        c := SoundWanting(pre + [t], rest[1..], After(t), z, gs, e);
      }
    }
  }

  lemma {:induction false} SoundHolding(pre: seq<Token>, rest: seq<Token>, last: Last, y: Yard, fs: Stack<Frame>,
                                        c0: Cst, e: Expr)
    returns (c: Cst)
    requires HoldsOperand(pre, y, fs, c0) && Level(c0) == 3 && HaveOperand(last) && Accepts(last, rest, y, e)
    ensures Wf(c) && Yield(c) == pre + rest && Tree(c) == e
    decreases |rest|
  {
    if rest == [] {
      var gs, d := CollapseToParen(pre, y, fs, c0);
      c := d;
      assert pre + rest == pre;
    } else {
      var t := rest[0];
      AcceptsStep(last, rest, y, e);
      Shift(pre, rest);
      var z, gs, d := AfterOperand(pre, y, fs, c0, last, t);
      if EndsOperand(t) {
        c := SoundHolding(pre + [t], rest[1..], After(t), z, gs, d, e);
      } else {
        c := SoundWanting(pre + [t], rest[1..], After(t), z, gs, e);
      }
    }
  }
}

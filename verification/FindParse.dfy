/** find's `parse` as a whole: what it accepts, the tree it builds, and the
    -print it adds. */
module FindParse {
  import opened Basics
  import opened FindSyntax
  import opened Stacks
  import opened FindYard

  // -------------------------------------------------------- completeness

  function LastOf(last: Last, items: seq<Token>): Last {
    if items == [] then last else After(items[|items| - 1])
  }

  lemma {:induction false} InsertAppend(last: Last, a: seq<Token>, b: seq<Token>)
    ensures InsertAnds(last, a + b) == InsertAnds(last, a) + InsertAnds(LastOf(last, a), b)
    ensures NoEmptyParens(last, a + b) == (NoEmptyParens(last, a) && NoEmptyParens(LastOf(last, a), b))
    decreases |a|
  {
    if a == [] {
      assert a + b == b;
    } else {
      var here, more := WithAnd(last, a[0]), InsertAnds(After(a[0]), a[1..]);
      assert (a + b)[1..] == a[1..] + b && (a + b)[0] == a[0];
      InsertAppend(After(a[0]), a[1..], b);
      assert LastOf(After(a[0]), a[1..]) == LastOf(last, a);
      Assoc(here, more, InsertAnds(LastOf(last, a), b));
    }
  }

  lemma InsertCons(last: Last, t: Token, b: seq<Token>)
    ensures InsertAnds(last, [t] + b) == WithAnd(last, t) + InsertAnds(After(t), b)
    ensures NoEmptyParens(last, [t] + b) == (!ClosesEmpty(last, t) && NoEmptyParens(After(t), b))
  {
    assert ([t] + b)[1..] == b;
  }

  lemma {:induction false} YieldEnds(c: Cst)
    ensures StartsOperand(Yield(c)[0]) && EndsOperand(Yield(c)[|Yield(c)| - 1])
    decreases c
  {
    match c
    case Atom(_) =>
    case Paren(_) =>
    case Neg(e) => YieldEnds(e);
    case Conj(l, _, r) => YieldEnds(l); YieldEnds(r);
    case Disj(l, r) => YieldEnds(l); YieldEnds(r);
  }

  lemma {:induction false} YieldNoEmptyParens(last: Last, c: Cst)
    ensures NoEmptyParens(last, Yield(c))
    decreases c
  {
    match c
    case Atom(p) => InsertCons(last, Prim(p), []); assert [Prim(p)] + [] == [Prim(p)];
    case Paren(e) =>
      YieldEnds(e);
      YieldNoEmptyParens(After(LPar), e);
      NoEmptyWrapped(last, Yield(e));
    case Neg(e) =>
      YieldNoEmptyParens(After(Not), e);
      InsertCons(last, Not, Yield(e));
    case Conj(l, written, r) =>
      var op := if written then [And] else [];
      YieldNoEmptyParens(last, l);
      YieldNoEmptyParens(LastOf(LastOf(last, Yield(l)), op), r);
      NoEmptyBinary(last, Yield(l), op, Yield(r));
    case Disj(l, r) =>
      YieldNoEmptyParens(last, l);
      YieldNoEmptyParens(After(Or), r);
      NoEmptyBinary(last, Yield(l), [Or], Yield(r));
  }

  lemma NoEmptyWrapped(last: Last, items: seq<Token>)
    requires items != [] && EndsOperand(items[|items| - 1]) && NoEmptyParens(After(LPar), items)
    ensures NoEmptyParens(last, [LPar] + items + [RPar])
  {
    Assoc([LPar], items, [RPar]);
    InsertCons(last, LPar, items + [RPar]);
    InsertAppend(After(LPar), items, [RPar]);
    InsertCons(LastOf(After(LPar), items), RPar, []);
    assert [RPar] + [] == [RPar];
  }

  lemma NoEmptyBinary(last: Last, a: seq<Token>, op: seq<Token>, b: seq<Token>)
    requires NoEmptyParens(last, a) && NoEmptyParens(LastOf(LastOf(last, a), op), b) && op in {[], [And], [Or]}
    ensures NoEmptyParens(last, a + op + b)
  {
    Assoc(a, op, b);
    InsertAppend(last, a, op + b);
    InsertAppend(LastOf(last, a), op, b);
  }

  function OpPrec(ops: Stack<Token>): nat { if ops == Empty then 0 else Prec(ops.top) }

  /** Sending the operators above `base`, all of precedence p or more, to the
      output leaves the operands s with e on top. */
  ghost predicate Owes(out: seq<Token>, ops: Stack<Token>, base: Stack<Token>, s: Stack<Expr>, e: Expr, p: nat)
    decreases ops
  {
    if ops == base then Build(out, Empty) == Ok(Push(e, s))
    else ops.Push? && Prec(ops.top) >= p && Owes(out + [ops.top], ops.rest, base, s, e, p)
  }

  lemma {:induction false} PopOwed(out: seq<Token>, ops: Stack<Token>, base: Stack<Token>, s: Stack<Expr>, e: Expr,
                                   p: nat, t: Token)
    requires Owes(out, ops, base, s, e, p) && IsBinary(t) && OpPrec(base) < Prec(t) <= p
    ensures PopFor(out, ops, t).ops == base
    ensures Build(PopFor(out, ops, t).out, Empty) == Ok(Push(e, s))
    decreases ops
  {
    if ops != base { PopOwed(out + [ops.top], ops.rest, base, s, e, p, t); }
  }

  lemma {:induction false} PopOwedToParen(out: seq<Token>, ops: Stack<Token>, base: Stack<Token>, s: Stack<Expr>,
                                          e: Expr, p: nat)
    requires Owes(out, ops, base, s, e, p) && p >= 1 && (base == Empty || base.top == LPar)
    ensures PopToParen(out, ops).ops == base
    ensures Build(PopToParen(out, ops).out, Empty) == Ok(Push(e, s))
    decreases ops
  {
    if ops != base { PopOwedToParen(out + [ops.top], ops.rest, base, s, e, p); }
  }

  /** An operator joins what is owed once its last operand has been read. */
  lemma {:induction false} OweMore(out: seq<Token>, ops: Stack<Token>, base: Stack<Token>, t: Token,
                                   s: Stack<Expr>, e: Expr, p: nat, s': Stack<Expr>, e': Expr)
    requires Owes(out, ops, Push(t, base), s, e, p) && p >= Prec(t) >= 1
    requires Attach(Push(e, s), t) == Ok(Push(e', s'))
    requires Depth(ops) > Depth(base)
    ensures Owes(out, ops, base, s', e', Prec(t))
    decreases ops
  {
    if ops == Push(t, base) {
      BuildSnoc(out, t, Empty);
    } else {
      OwesDepth(out + [ops.top], ops.rest, Push(t, base), s, e, p);
      OweMore(out + [ops.top], ops.rest, base, t, s, e, p, s', e');
    }
  }

  lemma {:induction false} OwesDepth(out: seq<Token>, ops: Stack<Token>, base: Stack<Token>, s: Stack<Expr>, e: Expr,
                                     p: nat)
    requires Owes(out, ops, base, s, e, p)
    ensures Depth(ops) >= Depth(base)
    decreases ops
  {
    if ops != base { OwesDepth(out + [ops.top], ops.rest, base, s, e, p); }
  }

  /** The yard reads the yield of any grammar tree and owes exactly that tree. */
  lemma {:induction false} Complete(c: Cst, last: Last, y: Yard, s: Stack<Expr>) returns (z: Yard)
    requires Wf(c) && !HaveOperand(last)
    requires Build(y.out, Empty) == Ok(s)
    requires Level(c) == 3 || OpPrec(y.ops) < Level(c)
    ensures Run(y, InsertAnds(last, Yield(c))) == Ok(z)
    ensures Owes(z.out, z.ops, y.ops, s, Tree(c), Level(c))
    decreases c
  {
    match c
    case Atom(p) =>
      z := Step(y, Prim(p)).value;
      assert Yield(c) == [Prim(p)] + [];
      InsertCons(last, Prim(p), []);
      assert InsertAnds(last, Yield(c)) == [Prim(p)];
      RunOne(y, Prim(p));
      BuildSnoc(y.out, Prim(p), Empty);
    case Paren(e) => z := CompleteParen(c, last, y, s);
    case Neg(e) =>
      var y1 := Yard(y.out, Push(Not, y.ops));
      z := Complete(e, After(Not), y1, s);
      InsertCons(last, Not, Yield(e));
      RunOne(y, Not);
      assert PopFor(y.out, y.ops, Not) == y;
      RunAppend(y, [Not], InsertAnds(After(Not), Yield(e)));
      OwesDepth(z.out, z.ops, y1.ops, s, Tree(e), 3);
      OweMore(z.out, z.ops, y.ops, Not, s, Tree(e), 3, s, Tree(c));
    case Conj(l, written, r) => z := CompleteBinary(c, l, And, written, r, last, y, s);
    case Disj(l, r) => z := CompleteBinary(c, l, Or, true, r, last, y, s);
  }

  lemma {:induction false} CompleteParen(c: Cst, last: Last, y: Yard, s: Stack<Expr>) returns (z: Yard)
    requires c.Paren? && Wf(c) && !HaveOperand(last)
    requires Build(y.out, Empty) == Ok(s)
    ensures Run(y, InsertAnds(last, Yield(c))) == Ok(z)
    ensures Owes(z.out, z.ops, y.ops, s, Tree(c), 3)
    decreases c, 0
  {
    var e := c.e;
    var y1 := Yard(y.out, Push(LPar, y.ops));
    var y2 := Complete(e, After(LPar), y1, s);
    YieldEnds(e);
    assert Yield(c) == [LPar] + (Yield(e) + [RPar]);
    var inner := InsertAnds(After(LPar), Yield(e));
    InsertCons(last, LPar, Yield(e) + [RPar]);
    InsertAppend(After(LPar), Yield(e), [RPar]);
    InsertCons(LastOf(After(LPar), Yield(e)), RPar, []);
    assert [RPar] + [] == [RPar];
    assert InsertAnds(last, Yield(c)) == [LPar] + (inner + [RPar]);
    PopOwedToParen(y2.out, y2.ops, y1.ops, s, Tree(e), Level(e));
    z := Step(y2, RPar).value;
    RunOne(y, LPar);
    RunAppend(y, [LPar], inner + [RPar]);
    RunParts(y1, inner, y2, RPar, z, [], z);
    assert [RPar] + [] == [RPar];
  }

  lemma {:induction false} CompleteBinary(c: Cst, l: Cst, t: Token, written: bool, r: Cst, last: Last, y: Yard,
                                          s: Stack<Expr>)
    returns (z: Yard)
    requires Wf(c) && !HaveOperand(last)
    requires (c == Conj(l, written, r) && t == And) || (c == Disj(l, r) && t == Or && written)
    requires Build(y.out, Empty) == Ok(s)
    requires OpPrec(y.ops) < Level(c)
    ensures Run(y, InsertAnds(last, Yield(c))) == Ok(z)
    ensures Owes(z.out, z.ops, y.ops, s, Tree(c), Level(c))
    decreases c, 0
  {
    var y1 := Complete(l, last, y, s);
    var y2 := ReadOwed(y1, y.ops, s, Tree(l), Level(l), t);
    z := Complete(r, After(t), y2, Push(Tree(l), s));
    OwesDepth(z.out, z.ops, y2.ops, Push(Tree(l), s), Tree(r), Level(r));
    OweMore(z.out, z.ops, y.ops, t, Push(Tree(l), s), Tree(r), Level(r), s, Tree(c));
    YieldEnds(l);
    YieldEnds(r);
    InsertBinary(last, Yield(l), t, written, Yield(r));
    RunParts(y, InsertAnds(last, Yield(l)), y1, t, y2, InsertAnds(After(t), Yield(r)), z);
  }

  /** Reading a binary operator sends out what its left operand still owes. */
  lemma ReadOwed(y: Yard, base: Stack<Token>, s: Stack<Expr>, e: Expr, p: nat, t: Token) returns (z: Yard)
    requires Owes(y.out, y.ops, base, s, e, p) && IsBinary(t) && OpPrec(base) < Prec(t) <= p
    ensures Step(y, t) == Ok(z) && z.ops == Push(t, base) && Build(z.out, Empty) == Ok(Push(e, s))
  {
    PopOwed(y.out, y.ops, base, s, e, p, t);
    z := Step(y, t).value;
  }

  lemma RunParts(y: Yard, left: seq<Token>, y1: Yard, t: Token, y2: Yard, right: seq<Token>, z: Yard)
    requires Run(y, left) == Ok(y1) && Step(y1, t) == Ok(y2) && Run(y2, right) == Ok(z)
    ensures Run(y, left + ([t] + right)) == Ok(z)
  {
    RunAppend(y, left, [t] + right);
    RunAppend(y1, [t], right);
    RunOne(y1, t);
  }

  /** Written or not, an operator ends up between its operands. */
  lemma InsertBinary(last: Last, a: seq<Token>, t: Token, written: bool, b: seq<Token>)
    requires a != [] && EndsOperand(a[|a| - 1]) && b != [] && StartsOperand(b[0])
    requires IsBinary(t) && (!written ==> t == And)
    ensures InsertAnds(last, a + (if written then [t] else []) + b)
         == InsertAnds(last, a) + ([t] + InsertAnds(After(t), b))
  {
    if written {
      assert a + [t] + b == a + ([t] + b);
      InsertWritten(last, a, t, b);
    } else {
      assert a + [] + b == a + b;
      InsertAppend(last, a, b);
      InsertImplicit(LastOf(last, a), b);
    }
  }

  lemma InsertWritten(last: Last, a: seq<Token>, t: Token, b: seq<Token>)
    requires IsBinary(t)
    ensures InsertAnds(last, a + ([t] + b)) == InsertAnds(last, a) + ([t] + InsertAnds(After(t), b))
  {
    InsertAppend(last, a, [t] + b);
    InsertCons(LastOf(last, a), t, b);
  }

  lemma InsertImplicit(last: Last, items: seq<Token>)
    requires items != [] && NeedsAnd(last, items[0])
    ensures InsertAnds(last, items) == [And] + InsertAnds(After(And), items)
  {
    AndThen(items[0], InsertAnds(After(items[0]), items[1..]));
  }

  lemma AndThen(t: Token, rest: seq<Token>)
    ensures [And, t] + rest == [And] + ([t] + rest)
  {
  }

  // ------------------------------------------------------------ all of it

  const PRINT := Primary("-print", [])

  predicate HasAction(ts: seq<Token>)
    decreases |ts|
  {
    ts != [] && ((ts[0].Prim? && IsAction(ts[0].p.name)) || HasAction(ts[1..]))
  }

  /** What is appended to the output: nothing if an action was given, `-print`
      alone if there was no expression, else `-print` and an `-a`. */
  function Suffix(infix: seq<Token>): seq<Token> {
    if infix == [] then [Prim(PRINT)]
    else if HasAction(infix) then []
    else [Prim(PRINT), And]
  }

  /** The second and third stage of `parse`. */
  function ParseInfix(infix: seq<Token>): Result<Expr> {
    match ToRpn(infix)
    case Err(e) => Err(e)
    case Ok(rpn) => ToTree(rpn + Suffix(infix))
  }

  function ParseItems(items: seq<Token>): Result<Expr> {
    ParseInfix(InsertAnds(Start, items))
  }

  /** All of `parse`. */
  function ParseWords(words: seq<string>, accepts: Primary -> bool): Result<Expr> {
    match Lex(words, 0, Start, accepts)
    case Err(e) => Err(e)
    case Ok(infix) => ParseInfix(infix)
  }

  lemma {:induction false} InsertKeepsActions(last: Last, items: seq<Token>)
    ensures HasAction(InsertAnds(last, items)) == HasAction(items)
    ensures InsertAnds(last, items) == [] <==> items == []
    decreases |items|
  {
    if items != [] {
      InsertKeepsActions(After(items[0]), items[1..]);
      var rest := InsertAnds(After(items[0]), items[1..]);
      assert ([items[0]] + rest)[1..] == rest;
      assert ([And, items[0]] + rest)[1..] == [items[0]] + rest;
    }
  }

  /** The tree for an expression, the default action included. */
  function WithDefault(e: Expr, items: seq<Token>): Expr {
    if HasAction(items) then e else EAnd(e, EPrim(PRINT))
  }

  lemma BuildSuffix(rpn: seq<Token>, s: Stack<Expr>)
    ensures Build(rpn + [], s) == Build(rpn, s)
    ensures Build(rpn + [Prim(PRINT), And], s) ==
            match Build(rpn, s)
            case Err(e) => Err(e)
            case Ok(z) => if z == Empty then Err(InsufficientArguments(And))
                          else Ok(Push(EAnd(z.top, EPrim(PRINT)), z.rest))
  {
    assert rpn + [] == rpn;
    BuildAppend(rpn, [Prim(PRINT), And], s);
    if Build(rpn, s).Ok? {
      var z := Build(rpn, s).value;
      var z1 := Push(EPrim(PRINT), z);
      assert [Prim(PRINT), And][1..] == [And];
      assert Build([Prim(PRINT), And], z) == Build([And], z1);
      assert Build([And], z1) == match Attach(z1, And) { case Err(e) => Err(e) case Ok(w) => Build([], w) }
      by { assert [And][1..] == []; }
    }
  }

  /** A tree of the grammar is accepted and is what `parse` builds. */
  lemma AcceptsYield(c: Cst)
    requires Wf(c)
    ensures ParseItems(Yield(c)) == Ok(WithDefault(Tree(c), Yield(c)))
  {
    var items := Yield(c);
    InsertKeepsActions(Start, items);
    var z := Complete(c, Start, Yard([], Empty), Empty);
    PopOwedToParen(z.out, z.ops, Empty, Empty, Tree(c), Level(c));
    BuildSuffix(PopToParen(z.out, z.ops).out, Empty);
  }

  /** Only trees of the grammar are accepted. */
  lemma AcceptedIsYield(items: seq<Token>) returns (c: Cst)
    requires items != [] && ParseItems(items).Ok?
    ensures Wf(c) && Yield(c) == items
  {
    InsertKeepsActions(Start, items);
    var rpn := ToRpn(InsertAnds(Start, items)).value;
    BuildSuffix(rpn, Empty);
    var s := Build(rpn, Empty).value;
    assert Accepts(Start, items, Yard([], Empty), s.top);
    c := SoundWanting([], items, Start, Yard([], Empty), Empty, s.top);
    assert [] + items == items;
  }

  lemma {:induction false} RunKeepsPrimaries(y: Yard, ts: seq<Token>)
    requires Run(y, ts).Ok?
    requires y.out != [] || HasAction(ts)
    ensures Run(y, ts).value.out != []
    decreases |ts|
  {
    if ts != [] {
      PopsGrow(y.out, y.ops, ts[0]);
      RunKeepsPrimaries(Step(y, ts[0]).value, ts[1..]);
    }
  }

  lemma {:induction false} PopsGrow(out: seq<Token>, ops: Stack<Token>, t: Token)
    ensures |PopFor(out, ops, t).out| >= |out| && |PopToParen(out, ops).out| >= |out|
    decreases ops
  {
    if ops.Push? { PopsGrow(out + [ops.top], ops.rest, t); }
  }

  lemma {:induction false} BuildLeavesSome(rpn: seq<Token>, s: Stack<Expr>)
    requires Build(rpn, s).Ok? && (rpn != [] || s != Empty)
    ensures Build(rpn, s).value != Empty
    decreases |rpn|
  {
    if rpn != [] { BuildLeavesSome(rpn[1..], Attach(s, rpn[0]).value); }
  }

  /** The final test of `parse`, for operands left over, never succeeds. */
  lemma NeverExtraArguments(items: seq<Token>)
    ensures ParseItems(items) != Err(ExtraArguments)
  {
    var infix := InsertAnds(Start, items);
    InsertKeepsActions(Start, items);
    var y0 := Yard([], Empty);
    RunErrors(y0, infix);
    if ToRpn(infix).Ok? {
      var rpn := ToRpn(infix).value;
      RunNet(y0, infix);
      DrainNet(Run(y0, infix).value);
      NetOfInfix(Start, items);
      BuildSuffix(rpn, Empty);
      BuildErrors(rpn + Suffix(infix), Empty);
      if items == [] {
        assert rpn + Suffix(infix) == [Prim(PRINT)];
        assert [Prim(PRINT)][1..] == [];
      } else if Build(rpn + Suffix(infix), Empty).Ok? {
        if HasAction(items) {
          RunKeepsPrimaries(y0, infix);
          PopsGrow(Run(y0, infix).value.out, Run(y0, infix).value.ops, Or);
        }
        BuildLeavesSome(rpn + Suffix(infix), Empty);
        BuildDepth(rpn, Empty);
        DepthOne(Build(rpn, Empty).value);
      }
    }
  }

  lemma DepthOne(s: Stack<Expr>)
    requires Depth(s) == 1
    ensures s.Push? && s.rest == Empty
  {
  }

  lemma {:induction false} RunErrors(y: Yard, ts: seq<Token>)
    ensures Run(y, ts) != Err(ExtraArguments)
    decreases |ts|
  {
    if ts != [] && Step(y, ts[0]).Ok? { RunErrors(Step(y, ts[0]).value, ts[1..]); }
  }

  lemma {:induction false} BuildErrors(rpn: seq<Token>, s: Stack<Expr>)
    ensures Build(rpn, s) != Err(ExtraArguments)
    decreases |rpn|
  {
    if rpn != [] && Attach(s, rpn[0]).Ok? { BuildErrors(rpn[1..], Attach(s, rpn[0]).value); }
  }

  /** Without an expression the tree is -print alone. */
  lemma NoExpression(words: seq<string>, accepts: Primary -> bool)
    requires Items(words, 0, accepts) == Ok([])
    ensures ParseWords(words, accepts) == Ok(EPrim(PRINT))
  {
    LexIsInsertAnds(words, 0, Start, accepts);
    var rpn := [Prim(PRINT)];
    assert [] + rpn == rpn;
    assert Build(rpn, Empty) == Build([], Push(EPrim(PRINT), Empty)) by { assert rpn[1..] == []; }
  }

  /** `parse` accepts a command line exactly when its words can be read and they
      form an expression of the grammar (or there are none). */
  lemma ParseAcceptsGrammar(words: seq<string>, accepts: Primary -> bool)
    ensures ParseWords(words, accepts).Ok? <==>
            Items(words, 0, accepts).Ok? &&
            (Items(words, 0, accepts).value == [] || InGrammar(Items(words, 0, accepts).value))
    ensures ParseWords(words, accepts) != Err(ExtraArguments)
  {
    LexIsInsertAnds(words, 0, Start, accepts);
    LexErrors(words, 0, Start, accepts);
    if Items(words, 0, accepts).Ok? {
      var items := Items(words, 0, accepts).value;
      NeverExtraArguments(items);
      if items == [] {
        NoExpression(words, accepts);
      } else {
        if ParseWords(words, accepts).Ok? {
          var c := AcceptedIsYield(items);
        }
        if InGrammar(items) {
          var c :| Wf(c) && Yield(c) == items;
          YieldNoEmptyParens(Start, c);
          AcceptsYield(c);
        }
      }
    }
  }

  lemma {:induction false} LexErrors(words: seq<string>, i: nat, last: Last, accepts: Primary -> bool)
    requires i <= |words|
    ensures Lex(words, i, last, accepts) != Err(ExtraArguments)
    decreases |words| - i
  {
    if i < |words| && ReadItem(words, i, accepts).Ok? {
      LexErrors(words, ReadItem(words, i, accepts).value.1, After(ReadItem(words, i, accepts).value.0), accepts);
    }
  }

  /** The tree built is the tree of the grammar, whichever derivation one takes,
      with the default -print guarded by the whole expression. */
  lemma ParseBuildsGrammarTree(words: seq<string>, accepts: Primary -> bool, c: Cst)
    requires Wf(c) && Items(words, 0, accepts) == Ok(Yield(c))
    ensures ParseWords(words, accepts) == Ok(WithDefault(Tree(c), Yield(c)))
  {
    LexIsInsertAnds(words, 0, Start, accepts);
    YieldNoEmptyParens(Start, c);
    AcceptsYield(c);
  }

  /** The grammar is unambiguous: the items determine the tree. */
  lemma GrammarUnambiguous(c: Cst, d: Cst)
    requires Wf(c) && Wf(d) && Yield(c) == Yield(d)
    ensures Tree(c) == Tree(d)
  {
    AcceptsYield(c);
    AcceptsYield(d);
  }
}

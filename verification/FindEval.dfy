/** Evaluation of find's expression tree: what `eval` does, what the expression
    means, and that they agree. */
module FindEval {
  import opened FindSyntax
  import opened FindParse
  import opened FindProgram

  /** C's `x ^ 1` on a two's-complement int. */
  function Flip(x: int): int { if x % 2 == 0 then x + 1 else x - 1 }

  /** `eval`, following the pointers.  `run` runs a primary in a world W and
      gives its int result and the world it leaves; e is the tree that the
      cells represent. */
  function Eval<W>(cells: seq<Cell>, i: int, ghost e: Expr, run: (Primary, W) -> (int, W), w: W): (int, W)
    requires Represents(cells, i, e)
    decreases e
  {
    var c := cells[i];
    if c.tok.Prim? then run(c.tok.p, w)
    else
      var (ret, w1) := if c.left == NIL then (0, w)
                       else Eval(cells, c.left, if e.EAnd? then e.l else if e.EOr? then e.l else e, run, w);
      var goRight := (c.tok == And && ret != 0) || (c.tok == Or && ret == 0) || c.tok == Not;
      var (ret2, w2) := if goRight
                        then Eval(cells, c.right,
                                  if e.EAnd? then e.r else if e.EOr? then e.r else if e.ENot? then e.e else e, run, w1)
                        else (ret, w1);
      (if c.tok == Not then Flip(ret2) else ret2, w2)
  }

  /** The meaning of an expression: short-circuit connectives over tests that
      may change the world, read off the grammar tree. */
  function Meaning<W>(c: Cst, test: (Primary, W) -> (bool, W), w: W): (bool, W)
    decreases c
  {
    match c
    case Atom(p) => test(p, w)
    case Paren(e) => Meaning(e, test, w)
    case Neg(e) => var (b, w1) := Meaning(e, test, w); (!b, w1)
    case Conj(l, _, r) =>
      var (b, w1) := Meaning(l, test, w);
      if b then Meaning(r, test, w1) else (false, w1)
    case Disj(l, r) =>
      var (b, w1) := Meaning(l, test, w);
      if b then (true, w1) else Meaning(r, test, w1)
  }

  /** Every primary of the utility returns 0 or 1. */
  ghost predicate ZeroOne<W(!new)>(run: (Primary, W) -> (int, W)) {
    forall p, w :: run(p, w).0 == 0 || run(p, w).0 == 1
  }

  function TestOf<W>(run: (Primary, W) -> (int, W)): (Primary, W) -> (bool, W) {
    (p, w) => (run(p, w).0 != 0, run(p, w).1)
  }

  /** Evaluating the cells gives the meaning of the expression: the same truth
      value and the same final world, so the same primaries run in the same
      order (let W record them). */
  lemma {:induction false} EvalIsMeaning<W(!new)>(cells: seq<Cell>, i: int, c: Cst, run: (Primary, W) -> (int, W), w: W)
    requires Represents(cells, i, Tree(c)) && ZeroOne(run)
    ensures var (v, w1) := Eval(cells, i, Tree(c), run, w);
            (v == 0 || v == 1) && (v != 0, w1) == Meaning(c, TestOf(run), w)
    decreases c
  {
    match c
    case Atom(_) =>
    case Paren(e) => EvalIsMeaning(cells, i, e, run, w);
    case Neg(e) => EvalIsMeaning(cells, cells[i].right, e, run, w);
    case Conj(l, _, r) =>
      EvalIsMeaning(cells, cells[i].left, l, run, w);
      EvalIsMeaning(cells, cells[i].right, r, run, Eval(cells, cells[i].left, Tree(l), run, w).1);
    case Disj(l, r) =>
      EvalIsMeaning(cells, cells[i].left, l, run, w);
      EvalIsMeaning(cells, cells[i].right, r, run, Eval(cells, cells[i].left, Tree(l), run, w).1);
  }

  /** The `^` in `eval` negates a result if and only if it is 0 or 1: for any
      other result both the expression and its negation count as true. */
  lemma NotNegatesExactly<W>(cells: seq<Cell>, i: int, x: Expr, run: (Primary, W) -> (int, W), w: W)
    requires Represents(cells, i, ENot(x))
    ensures var v := Eval(cells, cells[i].right, x, run, w).0;
            var nv := Eval(cells, i, ENot(x), run, w).0;
            ((nv != 0) == !(v != 0)) <==> (v == 0 || v == 1)
  {
  }

  /** From the command line to its effect: for any reading c of the command line
      in the grammar, running the tree that `parse` builds runs the expression,
      and then -print exactly when no action was given and the expression is
      true. */
  lemma FindRunsExpression<W(!new)>(words: seq<string>, accepts: Primary -> bool, c: Cst,
                                    cells: seq<Cell>, root: int, run: (Primary, W) -> (int, W), w: W)
    requires Wf(c) && Items(words, 0, accepts) == Ok(Yield(c)) && ZeroOne(run)
    requires ParseWords(words, accepts).Ok? && Represents(cells, root, ParseWords(words, accepts).value)
    ensures var (v, w2) := Eval(cells, root, ParseWords(words, accepts).value, run, w);
            var (b, w1) := Meaning(c, TestOf(run), w);
            if HasAction(Yield(c)) then (v != 0, w2) == (b, w1)
            else if b then (v, w2) == run(PRINT, w1)
            else v == 0 && w2 == w1
  {
    ParseBuildsGrammarTree(words, accepts, c);
    if HasAction(Yield(c)) {
      EvalIsMeaning(cells, root, c, run, w);
    } else {
      var whole := Conj(c, false, Atom(PRINT));
      assert Tree(whole) == WithDefault(Tree(c), Yield(c));
      EvalIsMeaning(cells, cells[root].left, c, run, w);
    }
  }
}

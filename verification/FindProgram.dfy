/** `parse` and `eval` of find as they run: arrays of tokens filled through
    moving positions, an operator stack of pointers into the infix array, and
    the tree laid into the output array by setting left and right. */
module FindProgram {
  import opened FindSyntax
  import opened Stacks
  import opened FindYard
  import opened FindParse

  /** A `struct tok`; pointers are array positions and NULL is NIL.  End is the
      sentinel that closes an array of tokens. */
  datatype Cell = Cell(tok: Token, left: int, right: int) | End

  const NIL := -1

  ghost predicate Spells(cells: seq<Cell>, ts: seq<Token>) {
    |cells| == |ts| && forall i :: 0 <= i < |ts| ==> cells[i].Cell? && cells[i].tok == ts[i]
  }

  // ------------------------------------------------------------ counting

  predicate IsParen(t: Token) { t.LPar? || t.RPar? }

  /** Tokens that reach the output. */
  function NonParens(ts: seq<Token>): nat {
    if ts == [] then 0 else NonParens(ts[..|ts| - 1]) + if IsParen(ts[|ts| - 1]) then 0 else 1
  }

  /** Tokens that are pushed on the operator stack. */
  function Stackables(ts: seq<Token>): nat {
    if ts == [] then 0 else Stackables(ts[..|ts| - 1]) + if EndsOperand(ts[|ts| - 1]) then 0 else 1
  }

  function Primaries(ts: seq<Token>): nat {
    if ts == [] then 0 else Primaries(ts[..|ts| - 1]) + if ts[|ts| - 1].Prim? then 1 else 0
  }

  lemma {:induction false} CountsAppend(a: seq<Token>, b: seq<Token>)
    ensures NonParens(a + b) == NonParens(a) + NonParens(b)
    ensures Stackables(a + b) == Stackables(a) + Stackables(b)
    ensures Primaries(a + b) == Primaries(a) + Primaries(b)
    decreases |b|
  {
    if b == [] {
      assert a + b == a;
    } else {
      assert (a + b)[..|a + b| - 1] == a + b[..|b| - 1];
      CountsAppend(a, b[..|b| - 1]);
    }
  }

  lemma CountsSnoc(a: seq<Token>, t: Token)
    ensures NonParens(a + [t]) == NonParens(a) + (if IsParen(t) then 0 else 1)
    ensures Stackables(a + [t]) == Stackables(a) + (if EndsOperand(t) then 0 else 1)
    ensures Primaries(a + [t]) == Primaries(a) + (if t.Prim? then 1 else 0)
  {
    assert (a + [t])[..|a|] == a;
  }

  lemma {:induction false} HasActionAppend(a: seq<Token>, b: seq<Token>)
    ensures HasAction(a + b) == (HasAction(a) || HasAction(b))
    decreases |a|
  {
    if a == [] {
      assert a + b == b;
    } else {
      assert (a + b)[1..] == a[1..] + b;
      HasActionAppend(a[1..], b);
    }
  }

  /** The infix list never holds more stackable tokens, nor more primaries, than
      the command line has words: each inserted `-a` follows an item that is not
      stackable itself. */
  lemma {:induction false} LexCounts(words: seq<string>, i: nat, last: Last, accepts: Primary -> bool)
    requires i <= |words| && Lex(words, i, last, accepts).Ok?
    ensures var ts := Lex(words, i, last, accepts).value;
            Stackables(ts) <= |words| - i + Have(last) && Primaries(ts) <= |words| - i
    decreases |words| - i
  {
    if i < |words| {
      var (t, j) := ReadItem(words, i, accepts).value;
      LexCounts(words, j, After(t), accepts);
      CountsAppend(WithAnd(last, t), Lex(words, j, After(t), accepts).value);
      CountsSnoc([], t);
      assert [] + [t] == [t] && [] + [And] == [And];
      if NeedsAnd(last, t) {
        CountsSnoc([], And);
        CountsSnoc([And], t);
        assert [And] + [t] == [And, t];
      }
    }
  }

  // -------------------------------------------------------- first stage

  /** argv to infix.  The array has two places for every word and one for the
      sentinel; `ntok` is the room needed for the output. */
  method Tokenise(words: seq<string>, accepts: Primary -> bool)
    returns (r: Result<nat>, infix: array<Cell>, ntok: nat, printFlag: nat)
    ensures fresh(infix)
    ensures Lex(words, 0, Start, accepts).Err? ==> r == Err(Lex(words, 0, Start, accepts).error)
    ensures Lex(words, 0, Start, accepts).Ok? ==>
              var ts := Lex(words, 0, Start, accepts).value;
              && r == Ok(|ts|) && |ts| < infix.Length
              && Spells(infix[..|ts|], ts) && infix[|ts|] == End
              && ntok == NonParens(ts) + 1
              && printFlag == |Suffix(ts)|
  {
    infix := new Cell[2 * |words| + 1](_ => End);
    var arg, tok: nat, last := 0, 0, Start;
    ntok, printFlag := 0, 1;
    ghost var done: seq<Token> := [];
    LexStart(words, accepts);
    while arg < |words|
      invariant arg <= |words| && tok <= 2 * arg
      invariant Spells(infix[..tok], done)
      invariant done == [] <==> arg == 0
      invariant ntok == NonParens(done)
      invariant printFlag == if HasAction(done) then 0 else 1
      invariant Lex(words, 0, Start, accepts) == Prefixed(done, Lex(words, arg, last, accepts))
      decreases |words| - arg
    {
      var item := ReadItem(words, arg, accepts);
      if item.Err? {
        r := Err(item.error);
        return;
      }
      var (t, next) := item.value;
      if ClosesEmpty(last, t) {
        r := Err(EmptyParens);
        return;
      }
      LexStep(words, arg, last, accepts, done, t, next);
      tok, ntok, printFlag, done := PutItem(infix, tok, last, t, ntok, printFlag, done);
      arg, last := next, After(t);
    }
    infix[tok] := End;
    ntok := ntok + 1;
    assert done + [] == done;
    if printFlag == 1 && |words| > 0 { printFlag := 2; }
    r := Ok(tok);
  }

  /** One token of the expression, after an implicit -a if it needs one. */
  method PutItem(infix: array<Cell>, tok: nat, last: Last, t: Token, ntok: nat, printFlag: nat, ghost done: seq<Token>)
    returns (tok': nat, ntok': nat, printFlag': nat, ghost done': seq<Token>)
    requires tok + 2 < infix.Length && Spells(infix[..tok], done)
    requires ntok == NonParens(done) && printFlag == if HasAction(done) then 0 else 1
    modifies infix
    ensures tok < tok' <= tok + 2 && done' == (if NeedsAnd(last, t) then done + [And] else done) + [t]
    ensures Spells(infix[..tok'], done')
    ensures ntok' == NonParens(done') && printFlag' == if HasAction(done') then 0 else 1
  {
    tok', ntok', printFlag', done' := tok, ntok, printFlag, done;
    if NeedsAnd(last, t) {
      Put(infix, tok', And, done');
      tok', ntok', done' := tok' + 1, ntok' + 1, done' + [And];
    }
    Put(infix, tok', t, done');
    tok', done' := tok' + 1, done' + [t];
    if !IsParen(t) { ntok' := ntok' + 1; }
    if t.Prim? && IsAction(t.p.name) { printFlag' := 0; }
  }

  /** `*tok++ = t`. */
  method Put(infix: array<Cell>, tok: nat, t: Token, ghost done: seq<Token>)
    requires tok < infix.Length && Spells(infix[..tok], done)
    modifies infix
    ensures Spells(infix[..tok + 1], done + [t])
    ensures NonParens(done + [t]) == NonParens(done) + (if IsParen(t) then 0 else 1)
    ensures HasAction(done + [t]) == (HasAction(done) || (t.Prim? && IsAction(t.p.name)))
  {
    infix[tok] := Cell(t, NIL, NIL);
    assert infix[..tok + 1] == infix[..tok] + [infix[tok]];
    ExtendDone(done, t);
  }

  function Prefixed(done: seq<Token>, r: Result<seq<Token>>): Result<seq<Token>> {
    match r { case Err(e) => Err(e) case Ok(ts) => Ok(done + ts) }
  }

  lemma LexStart(words: seq<string>, accepts: Primary -> bool)
    ensures Lex(words, 0, Start, accepts) == Prefixed([], Lex(words, 0, Start, accepts))
  {
    var r := Lex(words, 0, Start, accepts);
    if r.Ok? { assert [] + r.value == r.value; }
  }

  lemma ExtendDone(done: seq<Token>, t: Token)
    ensures NonParens(done + [t]) == NonParens(done) + (if IsParen(t) then 0 else 1)
    ensures HasAction(done + [t]) == (HasAction(done) || (t.Prim? && IsAction(t.p.name)))
  {
    CountsSnoc(done, t);
    HasActionAppend(done, [t]);
    assert [t][1..] == [];
  }

  lemma LexStep(words: seq<string>, i: nat, last: Last, accepts: Primary -> bool, done: seq<Token>, t: Token, j: nat)
    requires i < |words| && ReadItem(words, i, accepts) == Ok((t, j)) && !ClosesEmpty(last, t)
    ensures Prefixed(done, Lex(words, i, last, accepts))
         == Prefixed((if NeedsAnd(last, t) then done + [And] else done) + [t], Lex(words, j, After(t), accepts))
  {
    if Lex(words, j, After(t), accepts).Ok? {
      var ts := Lex(words, j, After(t), accepts).value;
      if NeedsAnd(last, t) {
        assert done + ([And, t] + ts) == ((done + [And]) + [t]) + ts;
      } else {
        assert done + ([t] + ts) == (done + [t]) + ts;
      }
    }
  }

  // ------------------------------------------------------- second stage

  /** The operator stack's contents: positions in the infix array. */
  function StackOf(ts: seq<Token>, stack: seq<int>): Stack<Token>
    requires forall i :: 0 <= i < |stack| ==> 0 <= stack[i] < |ts|
  {
    if stack == [] then Empty
    else Push(ts[stack[|stack| - 1]], StackOf(ts, stack[..|stack| - 1]))
  }

  /** The stacked tokens that will still reach the output. */
  function Waiting(s: Stack<Token>): nat {
    match s
    case Empty => 0
    case Push(t, rest) => Waiting(rest) + if t == LPar then 0 else 1
  }

  lemma {:induction false} PopCounts(out: seq<Token>, ops: Stack<Token>, t: Token)
    ensures var z := PopToParen(out, ops);
            |z.out| + Waiting(z.ops) == |out| + Waiting(ops) && Depth(z.ops) <= Depth(ops)
    ensures IsOperator(t) ==>
              var z := PopFor(out, ops, t);
              |z.out| + Waiting(z.ops) == |out| + Waiting(ops) && Depth(z.ops) <= Depth(ops)
    decreases ops
  {
    if ops.Push? { PopCounts(out + [ops.top], ops.rest, t); }
  }

  /** Output and stack together never hold more than what has been read. */
  lemma StepCounts(y: Yard, t: Token)
    requires Step(y, t).Ok?
    ensures var z := Step(y, t).value;
            && |z.out| + Waiting(z.ops) == |y.out| + Waiting(y.ops) + (if IsParen(t) then 0 else 1)
            && Depth(z.ops) <= Depth(y.ops) + (if EndsOperand(t) then 0 else 1)
  {
    PopCounts(y.out, y.ops, t);
    PopToParenNet(y.out, y.ops);
  }

  /** Invariant of the conversion loop after reading ts[..k]. */
  ghost predicate Converting(ts: seq<Token>, k: nat, infix: seq<Cell>, rpn: seq<Cell>, stack: seq<int>, y: Yard) {
    && k <= |ts| < |infix| && Spells(infix[..|ts|], ts) && infix[|ts|] == End
    && Spells(rpn, y.out)
    && (forall i :: 0 <= i < |stack| ==> 0 <= stack[i] < |ts|)
    && StackOf(ts, stack) == y.ops
    && |y.out| + Waiting(y.ops) == NonParens(ts[..k])
    && |stack| <= Stackables(ts[..k])
  }

  lemma StackOfSnoc(ts: seq<Token>, stack: seq<int>, k: int)
    requires forall i :: 0 <= i < |stack| ==> 0 <= stack[i] < |ts|
    requires 0 <= k < |ts|
    ensures StackOf(ts, stack + [k]) == Push(ts[k], StackOf(ts, stack))
  {
    assert (stack + [k])[..|stack|] == stack;
  }

  /** `while (top-- > stack && ...) *out++ = **top;` for an operator tok. */
  method PopOperators(ghost ts: seq<Token>, infix: array<Cell>, rpn: array<Cell>, stack: array<int>,
                      t: Token, out: nat, top: nat, ghost y: Yard)
    returns (out': nat, top': nat, ghost z: Yard)
    requires infix != rpn && |ts| < infix.Length && Spells(infix[..|ts|], ts)
    requires top <= stack.Length && forall i :: 0 <= i < top ==> 0 <= stack[i] < |ts|
    requires out <= rpn.Length && StackOf(ts, stack[..top]) == y.ops && Spells(rpn[..out], y.out)
    requires |y.out| + Waiting(y.ops) <= rpn.Length && IsOperator(t)
    modifies rpn
    ensures z == PopFor(y.out, y.ops, t)
    ensures top' <= top && out' <= rpn.Length && StackOf(ts, stack[..top']) == z.ops && Spells(rpn[..out'], z.out)
  {
    out', top', z := out, top, y;
    while top' > 0 && Yields(t, infix[stack[top' - 1]].tok)
      invariant top' <= top && out' <= rpn.Length
      invariant StackOf(ts, stack[..top']) == z.ops && Spells(rpn[..out'], z.out)
      invariant PopFor(z.out, z.ops, t) == PopFor(y.out, y.ops, t)
      invariant |z.out| + Waiting(z.ops) <= rpn.Length
      decreases top'
    {
      assert stack[..top'][..top' - 1] == stack[..top' - 1];
      rpn[out'] := infix[stack[top' - 1]];
      assert rpn[..out' + 1] == rpn[..out'] + [rpn[out']];
      z := Yard(z.out + [z.ops.top], z.ops.rest);
      out', top' := out' + 1, top' - 1;
    }
    if top' > 0 { assert stack[..top'][top' - 1] == stack[top' - 1]; }
  }

  /** The same down to a parenthesis, for `)` and for the end of the input. */
  method PopUntilParen(ghost ts: seq<Token>, infix: array<Cell>, rpn: array<Cell>, stack: array<int>,
                       out: nat, top: nat, ghost y: Yard)
    returns (out': nat, top': nat, ghost z: Yard)
    requires infix != rpn && |ts| < infix.Length && Spells(infix[..|ts|], ts)
    requires top <= stack.Length && forall i :: 0 <= i < top ==> 0 <= stack[i] < |ts|
    requires out <= rpn.Length && StackOf(ts, stack[..top]) == y.ops && Spells(rpn[..out], y.out)
    requires |y.out| + Waiting(y.ops) <= rpn.Length
    modifies rpn
    ensures z == PopToParen(y.out, y.ops)
    ensures top' <= top && out' <= rpn.Length && StackOf(ts, stack[..top']) == z.ops && Spells(rpn[..out'], z.out)
  {
    out', top', z := out, top, y;
    while top' > 0 && infix[stack[top' - 1]].tok != LPar
      invariant top' <= top && out' <= rpn.Length
      invariant StackOf(ts, stack[..top']) == z.ops && Spells(rpn[..out'], z.out)
      invariant PopToParen(z.out, z.ops) == PopToParen(y.out, y.ops)
      invariant |z.out| + Waiting(z.ops) <= rpn.Length
      decreases top'
    {
      assert stack[..top'][..top' - 1] == stack[..top' - 1];
      rpn[out'] := infix[stack[top' - 1]];
      assert rpn[..out' + 1] == rpn[..out'] + [rpn[out']];
      z := Yard(z.out + [z.ops.top], z.ops.rest);
      out', top' := out' + 1, top' - 1;
    }
    if top' > 0 { assert stack[..top'][top' - 1] == stack[top' - 1]; }
  }

  lemma CountsUpTo(ts: seq<Token>, k: nat)
    requires k < |ts|
    ensures NonParens(ts[..k + 1]) == NonParens(ts[..k]) + (if IsParen(ts[k]) then 0 else 1) <= NonParens(ts)
    ensures Stackables(ts[..k + 1]) == Stackables(ts[..k]) + (if EndsOperand(ts[k]) then 0 else 1) <= Stackables(ts)
    ensures Primaries(ts[..k + 1]) == Primaries(ts[..k]) + (if ts[k].Prim? then 1 else 0) <= Primaries(ts)
  {
    assert ts[..k + 1] == ts[..k] + [ts[k]];
    CountsSnoc(ts[..k], ts[k]);
    assert ts == ts[..k + 1] + ts[k + 1..];
    CountsAppend(ts[..k + 1], ts[k + 1..]);
  }

  lemma ConvertingStep(ts: seq<Token>, k: nat, infix: seq<Cell>, rpn: seq<Cell>, stack: seq<int>, y: Yard,
                       rpn': seq<Cell>, stack': seq<int>, z: Yard)
    requires k < |ts| && Converting(ts, k, infix, rpn, stack, y) && Step(y, ts[k]) == Ok(z)
    requires Spells(rpn', z.out)
    requires forall i :: 0 <= i < |stack'| ==> 0 <= stack'[i] < |ts|
    requires StackOf(ts, stack') == z.ops
    requires |stack'| <= |stack| + (if EndsOperand(ts[k]) then 0 else 1)
    ensures Converting(ts, k + 1, infix, rpn', stack', z)
  {
    StepCounts(y, ts[k]);
    CountsUpTo(ts, k);
  }

  method ReadRParen(ghost ts: seq<Token>, infix: array<Cell>, rpn: array<Cell>, stack: array<int>,
                    out: nat, top: nat, ghost y: Yard)
    returns (ok: bool, out': nat, top': nat, ghost z: Yard)
    requires infix != rpn && |ts| < infix.Length && Spells(infix[..|ts|], ts)
    requires top <= stack.Length && forall i :: 0 <= i < top ==> 0 <= stack[i] < |ts|
    requires out <= rpn.Length && StackOf(ts, stack[..top]) == y.ops && Spells(rpn[..out], y.out)
    requires |y.out| + Waiting(y.ops) <= rpn.Length
    modifies rpn
    ensures !ok ==> Step(y, RPar) == Err(ExtraRPar)
    ensures ok ==> Step(y, RPar) == Ok(z)
    ensures top' <= top && out' <= rpn.Length && forall i :: 0 <= i < top' ==> 0 <= stack[i] < |ts|
    ensures ok ==> StackOf(ts, stack[..top']) == z.ops && Spells(rpn[..out'], z.out)
  {
    out', top', z := PopUntilParen(ts, infix, rpn, stack, out, top, y);
    ok := top' > 0;
    if ok {
      assert stack[..top'][..top' - 1] == stack[..top' - 1];
      z := z.(ops := z.ops.rest);
      top' := top' - 1;
    }
  }

  /** `*top++ = tok;` */
  method PushToken(ghost ts: seq<Token>, k: nat, stack: array<int>, top: nat)
    requires k < |ts| && top < stack.Length && forall i :: 0 <= i < top ==> 0 <= stack[i] < |ts|
    modifies stack
    ensures forall i :: 0 <= i <= top ==> 0 <= stack[i] < |ts|
    ensures StackOf(ts, stack[..top + 1]) == Push(ts[k], old(StackOf(ts, stack[..top])))
  {
    StackOfSnoc(ts, stack[..top], k);
    ghost var below := stack[..top];
    stack[top] := k;
    assert stack[..top + 1] == below + [k];
  }

  /** `*out++ = *tok;` */
  method PutToken(rpn: array<Cell>, out: nat, cell: Cell, ghost before: seq<Token>)
    requires out < rpn.Length && cell.Cell? && Spells(rpn[..out], before)
    modifies rpn
    ensures Spells(rpn[..out + 1], before + [cell.tok])
  {
    ghost var below := rpn[..out];
    rpn[out] := cell;
    assert rpn[..out + 1] == below + [cell];
  }

  method ReadOperator(ghost ts: seq<Token>, k: nat, infix: array<Cell>, rpn: array<Cell>, stack: array<int>,
                      out: nat, top: nat, ghost y: Yard)
    returns (out': nat, top': nat, ghost z: Yard)
    requires infix != rpn && k < |ts| < infix.Length && Spells(infix[..|ts|], ts) && IsOperator(ts[k])
    requires top < stack.Length && forall i :: 0 <= i < top ==> 0 <= stack[i] < |ts|
    requires out <= rpn.Length && StackOf(ts, stack[..top]) == y.ops && Spells(rpn[..out], y.out)
    requires |y.out| + Waiting(y.ops) <= rpn.Length
    modifies rpn, stack
    ensures Step(y, ts[k]) == Ok(z)
    ensures top' <= top + 1 && out' <= rpn.Length
    ensures forall i :: 0 <= i < top' ==> 0 <= stack[i] < |ts|
    ensures StackOf(ts, stack[..top']) == z.ops && Spells(rpn[..out'], z.out)
  {
    var t := infix[k].tok;
    assert t == ts[k] by { assert infix[..|ts|][k] == infix[k]; }
    out', top', z := PopOperators(ts, infix, rpn, stack, t, out, top, y);
    PushToken(ts, k, stack, top');
    z := z.(ops := Push(t, z.ops));
    top' := top' + 1;
  }

  method ReadAnyToken(ghost ts: seq<Token>, k: nat, infix: array<Cell>, rpn: array<Cell>, stack: array<int>,
                      out: nat, top: nat, ghost y: Yard)
    returns (ok: bool, out': nat, top': nat, ghost z: Yard)
    requires infix != rpn && k < |ts| < infix.Length && Spells(infix[..|ts|], ts)
    requires top <= stack.Length && forall i :: 0 <= i < top ==> 0 <= stack[i] < |ts|
    requires out <= rpn.Length && StackOf(ts, stack[..top]) == y.ops && Spells(rpn[..out], y.out)
    requires |y.out| + Waiting(y.ops) <= rpn.Length
    requires (ts[k].Prim? ==> out < rpn.Length) && (!EndsOperand(ts[k]) ==> top < stack.Length)
    modifies rpn, stack
    ensures !ok ==> Step(y, ts[k]) == Err(ExtraRPar)
    ensures ok ==> Step(y, ts[k]) == Ok(z)
    ensures out' <= rpn.Length && top' <= stack.Length && top' <= top + if EndsOperand(ts[k]) then 0 else 1
    ensures ok ==> forall i :: 0 <= i < top' ==> 0 <= stack[i] < |ts|
    ensures ok ==> StackOf(ts, stack[..top']) == z.ops && Spells(rpn[..out'], z.out)
  {
    ok, out', top', z := true, out, top, y;
    var t := infix[k].tok;
    assert t == ts[k] by { assert infix[..|ts|][k] == infix[k]; }
    if t.Prim? {
      PutToken(rpn, out, infix[k], y.out);
      out', z := out + 1, y.(out := y.out + [t]);
    } else if t.LPar? {
      PushToken(ts, k, stack, top);
      top', z := top + 1, y.(ops := Push(t, y.ops));
    } else if t.RPar? {
      ok, out', top', z := ReadRParen(ts, infix, rpn, stack, out, top, y);
    } else {
      out', top', z := ReadOperator(ts, k, infix, rpn, stack, out, top, y);
    }
  }

  /** One turn of the conversion loop. */
  method ReadToken(ghost ts: seq<Token>, k: nat, infix: array<Cell>, rpn: array<Cell>, stack: array<int>,
                   out: nat, top: nat, ghost y: Yard)
    returns (ok: bool, out': nat, top': nat, ghost z: Yard)
    requires infix != rpn && k < |ts|
    requires out <= rpn.Length && top <= stack.Length
    requires Converting(ts, k, infix[..], rpn[..out], stack[..top], y)
    requires NonParens(ts) < rpn.Length && Stackables(ts) <= stack.Length
    modifies rpn, stack
    ensures !ok ==> Step(y, ts[k]) == Err(ExtraRPar)
    ensures ok ==> Step(y, ts[k]) == Ok(z) && out' <= rpn.Length && top' <= stack.Length
    ensures ok ==> Converting(ts, k + 1, infix[..], rpn[..out'], stack[..top'], z)
  {
    CountsUpTo(ts, k);
    ghost var rpn0, stack0 := rpn[..out], stack[..top];
    assert infix[..][..|ts|] == infix[..|ts|];
    assert forall i :: 0 <= i < top ==> stack[i] == stack[..top][i];
    ok, out', top', z := ReadAnyToken(ts, k, infix, rpn, stack, out, top, y);
    if ok { ConvertingStep(ts, k, infix[..], rpn0, stack0, y, rpn[..out'], stack[..top'], z); }
  }

  /** Infix to reverse polish notation: the second stage, without the suffix. */
  method Convert(ghost ts: seq<Token>, infix: array<Cell>, rpn: array<Cell>, stack: array<int>)
    returns (r: Result<nat>)
    requires infix != rpn && |ts| < infix.Length && Spells(infix[..|ts|], ts) && infix[|ts|] == End
    requires NonParens(ts) < rpn.Length && Stackables(ts) <= stack.Length
    modifies rpn, stack
    ensures ToRpn(ts).Err? ==> r == Err(ToRpn(ts).error)
    ensures ToRpn(ts).Ok? ==>
              && r == Ok(|ToRpn(ts).value|) && |ToRpn(ts).value| <= NonParens(ts)
              && Spells(rpn[..|ToRpn(ts).value|], ToRpn(ts).value)
  {
    var tok: nat, out: nat, top: nat := 0, 0, 0;
    ghost var y := Yard([], Empty);
    assert infix[..][..|ts|] == infix[..|ts|];
    while infix[tok] != End
      invariant tok <= |ts| && out <= rpn.Length && top <= stack.Length
      invariant Converting(ts, tok, infix[..], rpn[..out], stack[..top], y)
      invariant Run(Yard([], Empty), ts) == Run(y, ts[tok..])
      decreases |ts| - tok
    {
      assert tok < |ts|;
      assert ts[tok..][1..] == ts[tok + 1..];
      var ok, o, p, z := ReadToken(ts, tok, infix, rpn, stack, out, top, y);
      if !ok {
        r := Err(ExtraRPar);
        return;
      }
      tok, out, top, y := tok + 1, o, p, z;
    }
    assert tok == |ts|;
    assert ts[tok..] == [] && ts[..tok] == ts;
    assert forall i :: 0 <= i < top ==> stack[i] == stack[..top][i];
    PopCounts(y.out, y.ops, Or);
    var o, p, z := PopUntilParen(ts, infix, rpn, stack, out, top, y);
    out, top := o, p;
    if top > 0 {
      r := Err(ExtraLPar);
    } else {
      r := Ok(out);
    }
  }

  // -------------------------------------------------------- third stage

  /** The tree laid out in cells with root i is e.  Children come before their
      parent, so the pointers cannot form a cycle. */
  ghost predicate Represents(cells: seq<Cell>, i: int, e: Expr)
    decreases e
  {
    && 0 <= i < |cells| && cells[i].Cell?
    && var c := cells[i];
       match e
       case EPrim(p) => c.tok == Prim(p)
       case ENot(x) => c.tok == Not && c.left == NIL && c.right < i && Represents(cells, c.right, x)
       case EAnd(l, r) =>
         c.tok == And && c.left < i && c.right < i && Represents(cells, c.left, l) && Represents(cells, c.right, r)
       case EOr(l, r) =>
         c.tok == Or && c.left < i && c.right < i && Represents(cells, c.left, l) && Represents(cells, c.right, r)
  }

  lemma {:induction false} RepresentsFrame(a: seq<Cell>, b: seq<Cell>, i: int, e: Expr)
    requires Represents(a, i, e) && i < |b| && forall j :: 0 <= j <= i ==> a[j] == b[j]
    ensures Represents(b, i, e)
    decreases e
  {
    match e
    case EPrim(_) =>
    case ENot(x) => RepresentsFrame(a, b, a[i].right, x);
    case EAnd(l, r) => RepresentsFrame(a, b, a[i].left, l); RepresentsFrame(a, b, a[i].right, r);
    case EOr(l, r) => RepresentsFrame(a, b, a[i].left, l); RepresentsFrame(a, b, a[i].right, r);
  }

  /** The stack of pointers holds the trees s, all of them below position k. */
  ghost predicate HoldsTrees(cells: seq<Cell>, stack: seq<int>, k: nat, s: Stack<Expr>)
    decreases s
  {
    match s
    case Empty => stack == []
    case Push(e, rest) =>
      stack != [] && stack[|stack| - 1] < k && Represents(cells, stack[|stack| - 1], e)
      && HoldsTrees(cells, stack[..|stack| - 1], k, rest)
  }

  lemma {:induction false} HoldsTreesFrame(a: seq<Cell>, b: seq<Cell>, stack: seq<int>, k: nat, k': nat, s: Stack<Expr>)
    requires HoldsTrees(a, stack, k, s) && k <= k' && k <= |b| && k <= |a| && forall j :: 0 <= j < k ==> a[j] == b[j]
    ensures HoldsTrees(b, stack, k', s)
    decreases s
  {
    if s.Push? {
      RepresentsFrame(a, b, stack[|stack| - 1], s.top);
      HoldsTreesFrame(a, b, stack[..|stack| - 1], k, k', s.rest);
    }
  }

  lemma {:induction false} HoldsTreesDepth(cells: seq<Cell>, stack: seq<int>, k: nat, s: Stack<Expr>)
    requires HoldsTrees(cells, stack, k, s)
    ensures |stack| == Depth(s)
    decreases s
  {
    if s.Push? { HoldsTreesDepth(cells, stack[..|stack| - 1], k, s.rest); }
  }

  lemma HoldsTreesPush(cells: seq<Cell>, stack: seq<int>, k: nat, s: Stack<Expr>, e: Expr)
    requires HoldsTrees(cells, stack, k + 1, s) && Represents(cells, k, e)
    ensures HoldsTrees(cells, stack + [k], k + 1, Push(e, s))
  {
    assert (stack + [k])[..|stack|] == stack;
  }

  /** The `nargs` column of the operator table; primaries take none. */
  function NArgs(t: Token): nat { if t.Not? then 1 else if IsBinary(t) then 2 else 0 }

  /** Setting left and right of the token at k does to the stack of pointers
      what Attach does to the stack of trees. */
  lemma AttachPointers(cells: seq<Cell>, cells': seq<Cell>, stack: seq<int>, k: nat, s: Stack<Expr>, t: Token)
    returns (stack': seq<int>)
    requires HoldsTrees(cells, stack, k, s) && k < |cells| && cells[k].Cell? && cells[k].tok == t
    requires Attach(s, t).Ok? && |stack| >= NArgs(t)
    requires cells' == if t.Prim? then cells
                       else cells[k := Cell(t, if IsBinary(t) then stack[|stack| - 2] else NIL,
                                               if IsOperator(t) then stack[|stack| - 1] else NIL)]
    ensures stack' == stack[..|stack| - NArgs(t)] + [k]
    ensures HoldsTrees(cells', stack', k + 1, Attach(s, t).value)
  {
    HoldsTreesFrame(cells, cells', stack, k, k + 1, s);
    var z := Attach(s, t).value;
    var n := |stack|;
    if t.Prim? {
      assert stack[..n] == stack;
    } else if IsBinary(t) {
      assert stack[..n - 1][..n - 2] == stack[..n - 2];
    }
    HoldsTreesPush(cells', stack[..n - NArgs(t)], k, z.rest, z.top);
    stack' := stack[..n - NArgs(t)] + [k];
  }

  /** Invariant of the tree-building loop with the tokens ts[..k] done. */
  ghost predicate Linking(ts: seq<Token>, k: nat, cells: seq<Cell>, stack: seq<int>, s: Stack<Expr>) {
    && k <= |ts| < |cells| && Spells(cells[..|ts|], ts) && cells[|ts|] == End
    && HoldsTrees(cells, stack, k, s)
    && Build(ts[..k], Empty) == Ok(s)
    && Build(ts, Empty) == Build(ts[k..], s)
    && (k > 0 ==> s != Empty)
  }

  lemma LinkingStep(ts: seq<Token>, k: nat, cells: seq<Cell>, stack: seq<int>, s: Stack<Expr>)
    requires Linking(ts, k, cells, stack, s) && k < |ts|
    ensures |stack| == Depth(s)
    ensures Attach(s, ts[k]).Err? ==> Build(ts, Empty) == Err(Attach(s, ts[k]).error)
    ensures Attach(s, ts[k]).Ok? ==>
              var z := Attach(s, ts[k]).value;
              && Build(ts[..k + 1], Empty) == Ok(z) && Build(ts, Empty) == Build(ts[k + 1..], z)
              && Depth(z) <= Primaries(ts)
  {
    HoldsTreesDepth(cells, stack, k, s);
    assert ts[k..][1..] == ts[k + 1..];
    assert ts[..k + 1] == ts[..k] + [ts[k]];
    BuildSnoc(ts[..k], ts[k], Empty);
    if Attach(s, ts[k]).Ok? {
      BuildDepth(ts[..k + 1], Empty);
      NetBelowPrimaries(ts, k + 1);
    }
  }

  /** What one turn of the tree-building loop makes of the tokens. */
  function Attached(cells: seq<Cell>, stack: seq<int>, k: nat, t: Token): seq<Cell>
    requires k < |cells| && |stack| >= NArgs(t) && !IsParen(t)
  {
    if t.Prim? then cells
    else cells[k := Cell(t, if IsBinary(t) then stack[|stack| - 2] else NIL, stack[|stack| - 1])]
  }

  lemma LinkingNext(ts: seq<Token>, k: nat, cells: seq<Cell>, stack: seq<int>, s: Stack<Expr>)
    requires Linking(ts, k, cells, stack, s) && k < |ts| && !IsParen(ts[k])
    ensures |stack| == Depth(s) && cells[k].Cell? && cells[k].tok == ts[k]
    ensures |stack| < NArgs(ts[k]) ==> Attach(s, ts[k]) == Err(InsufficientArguments(ts[k]))
    ensures |stack| >= NArgs(ts[k]) ==>
              && Attach(s, ts[k]).Ok? && |stack| - NArgs(ts[k]) < Primaries(ts)
              && Linking(ts, k + 1, Attached(cells, stack, k, ts[k]), stack[..|stack| - NArgs(ts[k])] + [k],
                         Attach(s, ts[k]).value)
  {
    LinkingStep(ts, k, cells, stack, s);
    LinkingCell(ts, k, cells, stack);
    if |stack| >= NArgs(ts[k]) {
      var cells' := Attached(cells, stack, k, ts[k]);
      var stack' := AttachPointers(cells, cells', stack, k, s, ts[k]);
      HoldsTreesDepth(cells', stack', k + 1, Attach(s, ts[k]).value);
    }
  }

  lemma LinkingCell(ts: seq<Token>, k: nat, cells: seq<Cell>, stack: seq<int>)
    requires k < |ts| < |cells| && Spells(cells[..|ts|], ts) && !IsParen(ts[k])
    ensures cells[k].Cell? && cells[k].tok == ts[k]
    ensures |stack| >= NArgs(ts[k]) ==>
              var cells' := Attached(cells, stack, k, ts[k]);
              Spells(cells'[..|ts|], ts) && cells'[|ts|] == cells[|ts|]
  {
    assert cells[..|ts|][k] == cells[k];
  }

  /** One turn of the tree-building loop. */
  method LinkToken(ghost ts: seq<Token>, k: nat, rpn: array<Cell>, stack: array<int>, top: nat, ghost s: Stack<Expr>)
    returns (ok: bool, top': nat, ghost z: Stack<Expr>)
    requires k < |ts| && top <= stack.Length && Linking(ts, k, rpn[..], stack[..top], s)
    requires !IsParen(ts[k]) && Primaries(ts) <= stack.Length
    modifies rpn, stack
    ensures rpn[k] == old(rpn[k]) || ok
    ensures !ok ==> Attach(s, ts[k]) == Err(InsufficientArguments(ts[k]))
    ensures ok ==> top' <= stack.Length && Linking(ts, k + 1, rpn[..], stack[..top'], z)
  {
    ghost var cells, stack0 := rpn[..], stack[..top];
    LinkingNext(ts, k, cells, stack0, s);
    var t := rpn[k].tok;
    ok, top', z := top >= NArgs(t), top, s;
    if !ok { return; }
    z := Attach(s, t).value;
    if !t.Prim? {
      rpn[k] := Cell(t, if IsBinary(t) then stack[top - 2] else NIL, stack[top - 1]);
    }
    assert rpn[..] == Attached(cells, stack0, k, t);
    top' := top - NArgs(t);
    stack[top'] := k;
    assert stack[..top' + 1] == stack0[..top'] + [k];
    top' := top' + 1;
  }

  /** The third stage: operands are pushed, operators pop theirs into left and
      right. */
  method Link(ghost ts: seq<Token>, rpn: array<Cell>, stack: array<int>)
    returns (r: Result<nat>)
    requires |ts| < rpn.Length && Spells(rpn[..|ts|], ts) && rpn[|ts|] == End
    requires forall i :: 0 <= i < |ts| ==> !IsParen(ts[i])
    requires Primaries(ts) <= stack.Length && ts != []
    modifies rpn, stack
    ensures ToTree(ts).Err? ==> r == Err(ToTree(ts).error)
    ensures ToTree(ts).Ok? ==> r.Ok? && Represents(rpn[..], r.value, ToTree(ts).value)
  {
    var tok: nat, top: nat := 0, 0;
    ghost var s: Stack<Expr> := Empty;
    assert stack[..0] == [] && ts[..0] == [] && ts[0..] == ts;
    assert rpn[..][..|ts|] == rpn[..|ts|];
    while rpn[tok] != End
      invariant tok <= |ts| && top <= stack.Length
      invariant Linking(ts, tok, rpn[..], stack[..top], s)
      decreases |ts| - tok
    {
      LinkingStep(ts, tok, rpn[..], stack[..top], s);
      assert rpn[..][..|ts|][tok] == rpn[tok];
      var t := rpn[tok].tok;
      var ok, p, z := LinkToken(ts, tok, rpn, stack, top, s);
      if !ok {
        r := Err(InsufficientArguments(t));
        return;
      }
      tok, top, s := tok + 1, p, z;
    }
    assert tok == |ts| && ts[tok..] == [];
    HoldsTreesDepth(rpn[..], stack[..top], tok, s);
    top := top - 1;
    if top != 0 {
      r := Err(ExtraArguments);
    } else {
      DepthOne(s);
      r := Ok(stack[top]);
    }
  }

  lemma NetBelowPrimaries(ts: seq<Token>, k: nat)
    requires k <= |ts|
    ensures Net(ts[..k]) <= Primaries(ts[..k]) <= Primaries(ts)
  {
    NetAtMostPrimaries(ts[..k]);
    assert ts == ts[..k] + ts[k..];
    CountsAppend(ts[..k], ts[k..]);
  }

  lemma {:induction false} NetAtMostPrimaries(ts: seq<Token>)
    ensures Net(ts) <= Primaries(ts)
    decreases |ts|
  {
    if ts != [] { NetAtMostPrimaries(ts[..|ts| - 1]); }
  }

  // ---------------------------------------------------------- all stages

  predicate Pending(s: Stack<Token>) {
    match s
    case Empty => true
    case Push(t, rest) => (t == LPar || IsOperator(t)) && Pending(rest)
  }

  ghost predicate NoParens(ts: seq<Token>) { forall i :: 0 <= i < |ts| ==> !IsParen(ts[i]) }

  lemma {:induction false} PopKeeps(out: seq<Token>, ops: Stack<Token>, t: Token)
    requires NoParens(out) && Pending(ops)
    ensures var z := PopToParen(out, ops); NoParens(z.out) && Pending(z.ops) && Primaries(z.out) == Primaries(out)
    ensures IsOperator(t) ==>
              var z := PopFor(out, ops, t); NoParens(z.out) && Pending(z.ops) && Primaries(z.out) == Primaries(out)
    decreases ops
  {
    if ops.Push? && ops.top != LPar {
      CountsSnoc(out, ops.top);
      PopKeeps(out + [ops.top], ops.rest, t);
    }
  }

  /** The output has every primary of the input once, and no parentheses. */
  lemma {:induction false} RunKeeps(y: Yard, ts: seq<Token>)
    requires NoParens(y.out) && Pending(y.ops) && Run(y, ts).Ok?
    ensures var z := Run(y, ts).value;
            NoParens(z.out) && Pending(z.ops) && Primaries(z.out) == Primaries(y.out) + Primaries(ts)
    decreases |ts|
  {
    if ts != [] {
      StepKeeps(y, ts[0]);
      RunKeeps(Step(y, ts[0]).value, ts[1..]);
      PrimariesCons(ts);
    }
  }

  lemma StepKeeps(y: Yard, t: Token)
    requires NoParens(y.out) && Pending(y.ops) && Step(y, t).Ok?
    ensures var z := Step(y, t).value;
            NoParens(z.out) && Pending(z.ops) && Primaries(z.out) == Primaries(y.out) + (if t.Prim? then 1 else 0)
  {
    PopKeeps(y.out, y.ops, t);
    CountsSnoc(y.out, t);
  }

  lemma PrimariesCons(ts: seq<Token>)
    requires ts != []
    ensures Primaries(ts) == (if ts[0].Prim? then 1 else 0) + Primaries(ts[1..])
  {
    assert ts == [ts[0]] + ts[1..] && [ts[0]] == [] + [ts[0]];
    CountsAppend([ts[0]], ts[1..]);
    CountsSnoc([], ts[0]);
  }

  lemma RpnKeeps(ts: seq<Token>)
    requires ToRpn(ts).Ok?
    ensures NoParens(ToRpn(ts).value) && Primaries(ToRpn(ts).value) == Primaries(ts)
    ensures NoParens(ToRpn(ts).value + Suffix(ts))
    ensures Primaries(ToRpn(ts).value + Suffix(ts)) <= Primaries(ts) + |Suffix(ts)|
    ensures ToRpn(ts).value + Suffix(ts) != []
  {
    var y0 := Yard([], Empty);
    RunKeeps(y0, ts);
    var y := Run(y0, ts).value;
    PopKeeps(y.out, y.ops, Or);
    if HasAction(ts) {
      RunKeepsPrimaries(y0, ts);
      PopsGrow(y.out, y.ops, Or);
    }
    SuffixKeeps(ToRpn(ts).value, ts);
  }

  lemma SuffixKeeps(out: seq<Token>, ts: seq<Token>)
    requires NoParens(out) && (HasAction(ts) ==> out != [])
    ensures NoParens(out + Suffix(ts)) && out + Suffix(ts) != []
    ensures Primaries(out + Suffix(ts)) <= Primaries(out) + |Suffix(ts)|
  {
    CountsAppend(out, Suffix(ts));
    PrimariesLength(Suffix(ts));
  }

  lemma {:induction false} PrimariesLength(ts: seq<Token>)
    ensures Primaries(ts) <= |ts|
    decreases |ts|
  {
    if ts != [] { PrimariesLength(ts[..|ts| - 1]); }
  }

  /** Appends the default action and the sentinel to the output. */
  method AppendSuffix(ghost ts: seq<Token>, ghost out0: seq<Token>, rpn: array<Cell>, out: nat, printFlag: nat)
    returns (out': nat)
    requires out + printFlag < rpn.Length && Spells(rpn[..out], out0) && printFlag == |Suffix(ts)|
    modifies rpn
    ensures out' == out + printFlag && Spells(rpn[..out'], out0 + Suffix(ts)) && rpn[out'] == End
  {
    out' := out;
    if printFlag > 0 {
      rpn[out'] := Cell(Prim(PRINT), NIL, NIL);
      out' := out' + 1;
    }
    if printFlag == 2 {
      rpn[out'] := Cell(And, NIL, NIL);
      out' := out' + 1;
    }
    rpn[out'] := End;
    assert Spells(rpn[..out'], out0 + Suffix(ts)) by {
      assert rpn[..out'][..out] == rpn[..out];
    }
  }

  /** `parse`: fails with the diagnostic of ParseWords, or lays out its tree.
      All three arrays have the sizes the source gives them. */
  method Parse(words: seq<string>, accepts: Primary -> bool) returns (r: Result<nat>, toks: array<Cell>)
    ensures ParseWords(words, accepts).Err? ==> r == Err(ParseWords(words, accepts).error)
    ensures ParseWords(words, accepts).Ok? ==>
              r.Ok? && Represents(toks[..], r.value, ParseWords(words, accepts).value)
  {
    var n, infix, ntok, printFlag := Tokenise(words, accepts);
    if n.Err? {
      r, toks := Err(n.error), infix;
      return;
    }
    ghost var ts := Lex(words, 0, Start, accepts).value;
    LexCounts(words, 0, Start, accepts);
    var rpn := new Cell[ntok + printFlag](_ => End);
    var stack := new int[|words| + printFlag](_ => NIL);
    toks := rpn;
    var out := Convert(ts, infix, rpn, stack);
    if out.Err? {
      r := Err(out.error);
      return;
    }
    ghost var out0 := ToRpn(ts).value;
    RpnKeeps(ts);
    var end := AppendSuffix(ts, out0, rpn, out.value, printFlag);
    r := Link(out0 + Suffix(ts), rpn, stack);
  }
}

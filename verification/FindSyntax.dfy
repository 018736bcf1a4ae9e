/** Words, tokens and the expression grammar of find.

    The command line is a sequence of words.  `Lex` turns it into the infix
    token list that `parse` builds, with an `-a` inserted wherever the
    user left it out.  `Cst` is the grammar the utility documents: a concrete
    syntax tree keeps the parentheses and remembers which `-a` were written. */
module FindSyntax {

  datatype Result<+T> = Ok(value: T) | Err(error: Error)

  /** The diagnostics on which `parse` gives up, in the source's terms. */
  datatype Error =
    | NoArgument(name: string)
    | NoTerminator(name: string)
    | BadArgument(name: string)
    | UnknownOperand(word: string)
    | PathInExpression(word: string)
    | EmptyParens
    | ExtraRPar
    | ExtraLPar
    | InsufficientArguments(op: Token)
    | ExtraArguments

  /** A primary together with the words it consumed as its arguments. */
  datatype Primary = Primary(name: string, args: seq<string>)

  datatype Token = Prim(p: Primary) | LPar | RPar | Not | And | Or

  /** The `prec` column of the operator table; parentheses have 0. */
  function Prec(t: Token): nat {
    match t
    case Not => 3
    case And => 2
    case Or => 1
    case _ => 0
  }

  predicate IsBinary(t: Token) { t.And? || t.Or? }

  predicate IsOperator(t: Token) { t.Not? || t.And? || t.Or? }

  /** Whether a token ends an operand, so that another operand may follow only
      after an `-a`. */
  predicate EndsOperand(t: Token) { t.Prim? || t.RPar? }

  /** Whether a token begins an operand. */
  predicate StartsOperand(t: Token) { t.Prim? || t.Not? || t.LPar? }

  // ---------------------------------------------------------------- words

  const ONE_ARGUMENT: set<string> :=
    {"-name", "-path", "-perm", "-type", "-links", "-user", "-group", "-size",
     "-atime", "-ctime", "-mtime", "-newer"}

  const NO_ARGUMENT: set<string> :=
    {"-nouser", "-nogroup", "-prune", "-xdev", "-print", "-print0", "-depth"}

  const COMMAND: set<string> := {"-exec", "-ok"}

  predicate IsPrimaryName(w: string) {
    w in ONE_ARGUMENT || w in NO_ARGUMENT || w in COMMAND
  }

  /** The primaries after which the implicit `-print` is not added. */
  predicate IsAction(w: string) { w in COMMAND || w == "-print" || w == "-print0" }

  function OperatorOf(w: string): (r: Result<Token>) {
    if w == "(" then Ok(LPar)
    else if w == ")" then Ok(RPar)
    else if w == "!" then Ok(Not)
    else if w == "-a" then Ok(And)
    else if w == "-o" then Ok(Or)
    else if w != [] && w[0] == '-' then Err(UnknownOperand(w))
    else Err(PathInExpression(w))
  }

  /** Index of the word that ends the command of -exec (`;` or `{} +`) or of
      -ok (`;`) whose first word is at `first`; |words| if there is none. */
  function CommandEnd(words: seq<string>, first: nat, i: nat, plus: bool): (e: nat)
    requires first <= i <= |words|
    ensures i <= e <= |words|
    decreases |words| - i
  {
    if i == |words| then i
    else if words[i] == ";" then i
    else if plus && i > first && words[i - 1] == "{}" && words[i] == "+" then i
    else CommandEnd(words, first, i + 1, plus)
  }

  /** Reads the item that starts at word i: an operator, or a primary with the
      words it consumes.  Also gives the index of the next unread word.
      `accepts` stands for the checks on a primary's argument (numbers, file
      types, user names, ...), which ask the operating system. */
  function ReadItem(words: seq<string>, i: nat, accepts: Primary -> bool): (r: Result<(Token, nat)>)
    requires i < |words|
    ensures r.Ok? ==> i < r.value.1 <= |words|
  {
    var w := words[i];
    if w in NO_ARGUMENT then
      Ok((Prim(Primary(w, [])), i + 1))
    else if IsPrimaryName(w) && i + 1 == |words| then
      Err(NoArgument(w))
    else if w in ONE_ARGUMENT then
      var p := Primary(w, [words[i + 1]]);
      if accepts(p) then Ok((Prim(p), i + 2)) else Err(BadArgument(w))
    else if w in COMMAND then
      var e := CommandEnd(words, i + 1, i + 1, w == "-exec");
      if e == |words| then Err(NoTerminator(w))
      else Ok((Prim(Primary(w, words[i + 1..e + 1])), e + 1))
    else
      match OperatorOf(w)
      case Ok(t) => Ok((t, i + 1))
      case Err(e) => Err(e)
  }

  /** The items of the whole command line, as the user wrote them. */
  function Items(words: seq<string>, i: nat, accepts: Primary -> bool): (r: Result<seq<Token>>)
    requires i <= |words|
    decreases |words| - i
  {
    if i == |words| then Ok([])
    else
      match ReadItem(words, i, accepts)
      case Err(e) => Err(e)
      case Ok((t, j)) =>
        match Items(words, j, accepts)
        case Err(e) => Err(e)
        case Ok(ts) => Ok([t] + ts)
  }

  /** The token read last, or Start before the first one. */
  datatype Last = Start | After(t: Token)

  predicate HaveOperand(last: Last) { last.After? && EndsOperand(last.t) }

  predicate NeedsAnd(last: Last, t: Token) { HaveOperand(last) && StartsOperand(t) }

  predicate ClosesEmpty(last: Last, t: Token) { last == After(LPar) && t == RPar }

  /** The infix token list of `parse`'s first loop, or the first diagnostic
      that loop meets. */
  function Lex(words: seq<string>, i: nat, last: Last, accepts: Primary -> bool): (r: Result<seq<Token>>)
    requires i <= |words|
    decreases |words| - i
  {
    if i == |words| then Ok([])
    else
      match ReadItem(words, i, accepts)
      case Err(e) => Err(e)
      case Ok((t, j)) =>
        if ClosesEmpty(last, t) then Err(EmptyParens)
        else
          match Lex(words, j, After(t), accepts)
          case Err(e) => Err(e)
          case Ok(ts) => Ok(WithAnd(last, t) + ts)
  }

  function WithAnd(last: Last, t: Token): seq<Token> {
    if NeedsAnd(last, t) then [And, t] else [t]
  }

  /** Inserts the omitted `-a` into a list of items. */
  function InsertAnds(last: Last, items: seq<Token>): seq<Token>
    decreases |items|
  {
    if items == [] then [] else WithAnd(last, items[0]) + InsertAnds(After(items[0]), items[1..])
  }

  predicate NoEmptyParens(last: Last, items: seq<Token>)
    decreases |items|
  {
    items == [] || (!ClosesEmpty(last, items[0]) && NoEmptyParens(After(items[0]), items[1..]))
  }

  /** The lexer is the composition of reading items and inserting `-a`; it
      rejects exactly the unreadable word lists and those with `( )`. */
  lemma {:induction false} LexIsInsertAnds(words: seq<string>, i: nat, last: Last, accepts: Primary -> bool)
    requires i <= |words|
    ensures Lex(words, i, last, accepts).Ok? <==>
            Items(words, i, accepts).Ok? && NoEmptyParens(last, Items(words, i, accepts).value)
    ensures Lex(words, i, last, accepts).Ok? ==>
              Lex(words, i, last, accepts).value == InsertAnds(last, Items(words, i, accepts).value)
    decreases |words| - i
  {
    if i < |words| {
      var item := ReadItem(words, i, accepts);
      if item.Ok? {
        var (t, j) := item.value;
        LexIsInsertAnds(words, j, After(t), accepts);
        if Items(words, j, accepts).Ok? {
          var ts := Items(words, j, accepts).value;
          assert ([t] + ts)[1..] == ts;
        }
      }
    }
  }

  // -------------------------------------------------------------- grammar

  /** Concrete syntax: or := and {-o and}, and := not {[-a] not},
      not := ! not | ( or ) | primary. */
  datatype Cst =
    | Atom(p: Primary)
    | Paren(e: Cst)
    | Neg(e: Cst)
    | Conj(l: Cst, written: bool, r: Cst)
    | Disj(l: Cst, r: Cst)

  /** The nonterminal a tree belongs to: 3 for not, 2 for and, 1 for or. */
  function Level(c: Cst): nat {
    match c
    case Disj(_, _) => 1
    case Conj(_, _, _) => 2
    case _ => 3
  }

  predicate Wf(c: Cst) {
    match c
    case Atom(_) => true
    case Paren(e) => Wf(e)
    case Neg(e) => Wf(e) && Level(e) >= 3
    case Conj(l, _, r) => Wf(l) && Wf(r) && Level(l) >= 2 && Level(r) >= 3
    case Disj(l, r) => Wf(l) && Wf(r) && Level(l) >= 1 && Level(r) >= 2
  }

  /** The items a concrete syntax tree stands for. */
  function Yield(c: Cst): (ts: seq<Token>)
    ensures ts != []
  {
    match c
    case Atom(p) => [Prim(p)]
    case Paren(e) => [LPar] + Yield(e) + [RPar]
    case Neg(e) => [Not] + Yield(e)
    case Conj(l, written, r) => Yield(l) + (if written then [And] else []) + Yield(r)
    case Disj(l, r) => Yield(l) + [Or] + Yield(r)
  }

  /** A list of items is an expression when some tree of the grammar yields it. */
  ghost predicate InGrammar(items: seq<Token>) {
    exists c :: Wf(c) && Yield(c) == items
  }

  /** Abstract syntax: what `eval` walks. */
  datatype Expr = EPrim(p: Primary) | ENot(e: Expr) | EAnd(l: Expr, r: Expr) | EOr(l: Expr, r: Expr)

  function Tree(c: Cst): Expr {
    match c
    case Atom(p) => EPrim(p)
    case Paren(e) => Tree(e)
    case Neg(e) => ENot(Tree(e))
    case Conj(l, _, r) => EAnd(Tree(l), Tree(r))
    case Disj(l, r) => EOr(Tree(l), Tree(r))
  }
}

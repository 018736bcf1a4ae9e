/** The expression as the user types it: which words make which token, and find's
    `parse` and `eval` from words to effects. */
module FindWords {
  import opened Basics
  import opened FindSyntax
  import opened FindParse
  import opened FindProgram
  import opened FindEval

  /** The words of a token.  A primary is its name and what it consumes. */
  function Words(t: Token): (ws: seq<string>)
    ensures ws != []
  {
    match t
    case Prim(p) => [p.name] + p.args
    case LPar => ["("]
    case RPar => [")"]
    case Not => ["!"]
    case And => ["-a"]
    case Or => ["-o"]
  }

  function AllWords(ts: seq<Token>): seq<string> {
    if ts == [] then [] else Words(ts[0]) + AllWords(ts[1..])
  }

  /** Word k ends a command of -exec or -ok that begins at `first`. */
  predicate Ends(name: string, words: seq<string>, first: nat, k: nat)
    requires first <= k < |words|
  {
    words[k] == ";" || (name == "-exec" && k > first && words[k - 1] == "{}" && words[k] == "+")
  }

  predicate TakesNone(w: string) {
    w in ["-nouser", "-nogroup", "-prune", "-xdev", "-print", "-print0", "-depth"]
  }

  predicate TakesOne(w: string) {
    w in ["-name", "-path", "-perm", "-type", "-links", "-user", "-group", "-size",
          "-atime", "-ctime", "-mtime", "-newer"]
  }

  predicate TakesCommand(w: string) { w in ["-exec", "-ok"] }

  /** A primary with its arguments: none, one that passes its check, or a command
      up to its terminator. */
  predicate Readable(p: Primary, accepts: Primary -> bool) {
    if TakesNone(p.name) then p.args == []
    else if TakesOne(p.name) then |p.args| == 1 && accepts(p)
    else
      && TakesCommand(p.name) && p.args != [] && Ends(p.name, p.args, 0, |p.args| - 1)
      && forall k :: 0 <= k < |p.args| - 1 ==> !Ends(p.name, p.args, 0, k)
  }

  predicate AllReadable(ts: seq<Token>, accepts: Primary -> bool) {
    ts == [] || ((ts[0].Prim? ==> Readable(ts[0].p, accepts)) && AllReadable(ts[1..], accepts))
  }

  // -------------------------------------------------------- words to tokens

  lemma NameKinds(w: string)
    ensures TakesNone(w) <==> w in NO_ARGUMENT
    ensures TakesOne(w) <==> w in ONE_ARGUMENT
    ensures TakesCommand(w) <==> w in COMMAND
    ensures IsPrimaryName(w) ==> |w| >= 3
  {
  }

  lemma {:induction false} CommandEndIs(words: seq<string>, first: nat, i: nat, name: string)
    requires name == "-exec" || name == "-ok"
    requires first <= i <= |words|
    ensures var e := CommandEnd(words, first, i, name == "-exec");
            && (e < |words| ==> Ends(name, words, first, e))
            && (forall k :: i <= k < e ==> !Ends(name, words, first, k))
    decreases |words| - i
  {
    var e := CommandEnd(words, first, i, name == "-exec");
    if e != i { CommandEndIs(words, first, i + 1, name); }
  }

  /** The first terminator is the end. */
  lemma CommandEndsAt(words: seq<string>, first: nat, e: nat, name: string)
    requires name == "-exec" || name == "-ok"
    requires first <= e < |words| && Ends(name, words, first, e)
    requires forall k :: first <= k < e ==> !Ends(name, words, first, k)
    ensures CommandEnd(words, first, first, name == "-exec") == e
  {
    var d := CommandEnd(words, first, first, name == "-exec");
    CommandEndIs(words, first, first, name);
  }

  lemma EndsInside(name: string, words: seq<string>, first: nat, args: seq<string>, k: nat)
    requires k < |args| && first + |args| <= |words| && words[first..first + |args|] == args
    ensures Ends(name, words, first, first + k) == Ends(name, args, 0, k)
  {
    assert words[first + k] == args[k] && (k > 0 ==> words[first + k - 1] == args[k - 1]);
  }

  lemma CommandRead(words: seq<string>, first: nat, p: Primary, accepts: Primary -> bool)
    requires p.name == "-exec" || p.name == "-ok"
    requires Readable(p, accepts) && first + |p.args| <= |words| && words[first..first + |p.args|] == p.args
    ensures p.args != [] && CommandEnd(words, first, first, p.name == "-exec") == first + |p.args| - 1
  {
    var e := first + |p.args| - 1;
    EndsInside(p.name, words, first, p.args, |p.args| - 1);
    forall k | first <= k < e ensures !Ends(p.name, words, first, k) {
      EndsInside(p.name, words, first, p.args, k - first);
    }
    CommandEndsAt(words, first, e, p.name);
  }

  lemma ReadCommand(words: seq<string>, first: nat, name: string, accepts: Primary -> bool)
    requires name == "-exec" || name == "-ok"
    requires first <= |words| && CommandEnd(words, first, first, name == "-exec") < |words|
    ensures Readable(Primary(name, words[first..CommandEnd(words, first, first, name == "-exec") + 1]), accepts)
  {
    var e := CommandEnd(words, first, first, name == "-exec");
    var args := words[first..e + 1];
    CommandEndIs(words, first, first, name);
    forall k | 0 <= k < |args| ensures Ends(name, words, first, first + k) == Ends(name, args, 0, k) {
      EndsInside(name, words, first, args, k);
    }
  }

  /** A token is read from its own words, whatever follows them. */
  lemma TokenRead(words: seq<string>, i: nat, t: Token, accepts: Primary -> bool)
    requires i + |Words(t)| <= |words| && words[i..i + |Words(t)|] == Words(t)
    requires t.Prim? ==> Readable(t.p, accepts)
    ensures ReadItem(words, i, accepts) == Ok((t, i + |Words(t)|))
  {
    assert words[i] == words[i..i + |Words(t)|][0] == Words(t)[0];
    NameKinds(words[i]);
    if t.Prim? { PrimaryRead(words, i, t.p, accepts); }
  }

  lemma PrimaryRead(words: seq<string>, i: nat, p: Primary, accepts: Primary -> bool)
    requires i + 1 + |p.args| <= |words| && words[i..i + 1 + |p.args|] == [p.name] + p.args && Readable(p, accepts)
    ensures ReadItem(words, i, accepts) == Ok((Prim(p), i + 1 + |p.args|))
  {
    SplitOff(words, i, p.name, p.args);
    NameKinds(p.name);
    if TakesNone(p.name) {
    } else if TakesOne(p.name) {
      assert [words[i + 1]] == p.args;
    } else {
      CommandRead(words, i + 1, p, accepts);
    }
  }

  lemma SplitOff(words: seq<string>, i: nat, w: string, args: seq<string>)
    requires i + 1 + |args| <= |words| && words[i..i + 1 + |args|] == [w] + args
    ensures words[i] == w && words[i + 1..i + 1 + |args|] == args
    ensures |args| == 1 ==> words[i + 1] == args[0]
  {
    assert words[i] == words[i..i + 1 + |args|][0];
    assert words[i + 1..i + 1 + |args|] == words[i..i + 1 + |args|][1..];
    if |args| == 1 { assert words[i + 1] == words[i..i + 1 + |args|][1]; }
  }

  /** What has been read was made of its own words. */
  lemma ReadToken(words: seq<string>, i: nat, accepts: Primary -> bool)
    requires i < |words| && ReadItem(words, i, accepts).Ok?
    ensures var (t, j) := ReadItem(words, i, accepts).value;
            && words[i..j] == Words(t) && (t.Prim? ==> Readable(t.p, accepts))
  {
    var w := words[i];
    var (t, j) := ReadItem(words, i, accepts).value;
    NameKinds(w);
    assert words[i..i + 1] == [w] && words[i..j] == [w] + words[i + 1..j];
    if w in COMMAND && w !in ONE_ARGUMENT && w !in NO_ARGUMENT { ReadCommand(words, i + 1, w, accepts); }
  }

  lemma ItemsCons(pre: seq<string>, t: Token, more: seq<string>, ts: seq<Token>, accepts: Primary -> bool)
    requires t.Prim? ==> Readable(t.p, accepts)
    requires Items((pre + Words(t)) + more, |pre + Words(t)|, accepts) == Ok(ts)
    ensures Items((pre + Words(t)) + more, |pre|, accepts) == Ok([t] + ts)
  {
    Middle(pre, Words(t), more);
    TokenRead((pre + Words(t)) + more, |pre|, t, accepts);
  }

  lemma Middle(a: seq<string>, b: seq<string>, c: seq<string>)
    ensures ((a + b) + c)[|a|..|a| + |b|] == b
  {
  }

  lemma {:induction false} TokensRead(pre: seq<string>, ts: seq<Token>, accepts: Primary -> bool)
    requires AllReadable(ts, accepts)
    ensures Items(pre + AllWords(ts), |pre|, accepts) == Ok(ts)
    decreases |ts|
  {
    if ts == [] {
      assert pre + [] == pre;
    } else {
      TokensRead(pre + Words(ts[0]), ts[1..], accepts);
      ItemsCons(pre, ts[0], AllWords(ts[1..]), ts[1..], accepts);
      Assoc(pre, Words(ts[0]), AllWords(ts[1..]));
      HeadTail(ts[0], ts[1..], ts);
    }
  }

  lemma HeadTail(t: Token, ts: seq<Token>, all: seq<Token>)
    ensures ([t] + ts)[0] == t && ([t] + ts)[1..] == ts
    ensures all != [] && all[0] == t && all[1..] == ts ==> all == [t] + ts
  {
  }

  lemma {:induction false} ReadTokens(words: seq<string>, i: nat, accepts: Primary -> bool)
    requires i <= |words| && Items(words, i, accepts).Ok?
    ensures var ts := Items(words, i, accepts).value;
            AllWords(ts) == words[i..] && AllReadable(ts, accepts)
    decreases |words| - i
  {
    if i < |words| {
      var (t, j) := ReadItem(words, i, accepts).value;
      var ts := Items(words, j, accepts).value;
      ReadToken(words, i, accepts);
      ReadTokens(words, j, accepts);
      HeadTail(t, ts, [t] + ts);
      Cut(words, i, j, |words|);
      assert words[i..|words|] == words[i..] && words[j..|words|] == words[j..];
    }
  }

  /** The words of a command line are read as tokens if and only if they are the
      words of these tokens. */
  lemma ItemsIff(words: seq<string>, ts: seq<Token>, accepts: Primary -> bool)
    ensures Items(words, 0, accepts) == Ok(ts) <==> words == AllWords(ts) && AllReadable(ts, accepts)
  {
    assert words[0..] == words;
    if Items(words, 0, accepts) == Ok(ts) { ReadTokens(words, 0, accepts); }
    if words == AllWords(ts) && AllReadable(ts, accepts) {
      TokensRead([], ts, accepts);
      assert [] + words == words;
    }
  }

  /** The diagnostic for words that begin no token. */
  predicate Explains(e: Error, rest: seq<string>, accepts: Primary -> bool) {
    rest != [] && rest[0] !in ["(", ")", "!", "-a", "-o"] &&
    match e
    case NoArgument(w) => rest == [w]
    case BadArgument(w) => rest[0] == w && |rest| > 1 && !accepts(Primary(w, [rest[1]]))
    case NoTerminator(w) =>
      rest[0] == w && TakesCommand(w) && forall k :: 1 <= k < |rest| ==> !Ends(w, rest, 1, k)
    case UnknownOperand(w) => rest[0] == w && "-" <= w
    case PathInExpression(w) => rest[0] == w && !("-" <= w)
    case _ => false
  }

  /** The first words that make no token are the ones reported. */
  lemma {:induction false} ItemsError(words: seq<string>, i: nat, accepts: Primary -> bool)
    returns (ts: seq<Token>, j: nat)
    requires i <= |words| && Items(words, i, accepts).Err?
    ensures i <= j <= |words| && words[i..j] == AllWords(ts) && AllReadable(ts, accepts)
    ensures Explains(Items(words, i, accepts).error, words[j..], accepts)
    decreases |words| - i
  {
    var item := ReadItem(words, i, accepts);
    if item.Ok? {
      var (t, n) := item.value;
      ReadToken(words, i, accepts);
      var more;
      more, j := ItemsError(words, n, accepts);
      ts := [t] + more;
      HeadTail(t, more, ts);
      Cut(words, i, n, j);
    } else {
      ts, j := [], i;
      Unread(words, i, accepts);
    }
  }

  lemma Cut(words: seq<string>, i: nat, n: nat, j: nat)
    requires i <= n <= j <= |words|
    ensures words[i..j] == words[i..n] + words[n..j]
  {
  }

  lemma Unread(words: seq<string>, i: nat, accepts: Primary -> bool)
    requires i < |words| && ReadItem(words, i, accepts).Err?
    ensures Explains(ReadItem(words, i, accepts).error, words[i..], accepts)
  {
    var w, rest := words[i], words[i..];
    NameKinds(w);
    if w in COMMAND && i + 1 < |words| {
      CommandEndIs(words, i + 1, i + 1, w);
      forall k | 1 <= k < |rest| ensures Ends(w, rest, 1, k) == Ends(w, words, i + 1, i + k) {
        assert rest[k] == words[i + k] && rest[k - 1] == words[i + k - 1];
      }
    }
    if |rest| == 1 { assert rest == [w]; }
  }

  // ------------------------------------------------------------- sentences

  /** The words of an expression, with `-a` where it was written. */
  function Sentence(c: Cst): seq<string> {
    match c
    case Atom(p) => [p.name] + p.args
    case Paren(e) => ["("] + Sentence(e) + [")"]
    case Neg(e) => ["!"] + Sentence(e)
    case Conj(l, written, r) => Sentence(l) + (if written then ["-a"] else []) + Sentence(r)
    case Disj(l, r) => Sentence(l) + ["-o"] + Sentence(r)
  }

  predicate TreeReadable(c: Cst, accepts: Primary -> bool) {
    match c
    case Atom(p) => Readable(p, accepts)
    case Paren(e) => TreeReadable(e, accepts)
    case Neg(e) => TreeReadable(e, accepts)
    case Conj(l, _, r) => TreeReadable(l, accepts) && TreeReadable(r, accepts)
    case Disj(l, r) => TreeReadable(l, accepts) && TreeReadable(r, accepts)
  }

  /** Whether an action is named anywhere in it, run or not. */
  predicate NamesAction(c: Cst) {
    match c
    case Atom(p) => p.name in ["-print", "-print0", "-exec", "-ok"]
    case Paren(e) => NamesAction(e)
    case Neg(e) => NamesAction(e)
    case Conj(l, _, r) => NamesAction(l) || NamesAction(r)
    case Disj(l, r) => NamesAction(l) || NamesAction(r)
  }

  lemma {:induction false} AllWordsAppend(a: seq<Token>, b: seq<Token>)
    ensures AllWords(a + b) == AllWords(a) + AllWords(b)
    decreases |a|
  {
    if a == [] {
      assert a + b == b;
    } else {
      assert (a + b)[1..] == a[1..] + b;
      AllWordsAppend(a[1..], b);
      Assoc(Words(a[0]), AllWords(a[1..]), AllWords(b));
    }
  }

  lemma {:induction false} AllReadableAppend(a: seq<Token>, b: seq<Token>, accepts: Primary -> bool)
    ensures AllReadable(a + b, accepts) <==> AllReadable(a, accepts) && AllReadable(b, accepts)
    decreases |a|
  {
    if a == [] {
      assert a + b == b;
    } else {
      assert (a + b)[1..] == a[1..] + b;
      AllReadableAppend(a[1..], b, accepts);
    }
  }

  lemma OneWord(t: Token)
    ensures AllWords([t]) == Words(t)
  {
    assert [t][1..] == [] && Words(t) + [] == Words(t);
  }

  lemma {:induction false} SentenceIsYield(c: Cst, accepts: Primary -> bool)
    ensures Sentence(c) == AllWords(Yield(c))
    ensures AllReadable(Yield(c), accepts) <==> TreeReadable(c, accepts)
    ensures HasAction(Yield(c)) <==> NamesAction(c)
    decreases c
  {
    match c
    case Atom(p) => OneWord(Prim(p));
    case Paren(e) =>
      SentenceIsYield(e, accepts);
      Wrapped(LPar, Yield(e), RPar, accepts);
    case Neg(e) =>
      SentenceIsYield(e, accepts);
      Between([], Not, Yield(e), accepts);
      assert [] + [Not] == [Not] && [] + ["!"] == ["!"] && AllWords([]) == [];
    case Conj(l, written, r) =>
      SentenceIsYield(l, accepts);
      SentenceIsYield(r, accepts);
      if written {
        Between(Yield(l), And, Yield(r), accepts);
      } else {
        Beside(Yield(l), Yield(r), accepts);
        assert Yield(l) + [] == Yield(l) && Sentence(l) + [] == Sentence(l);
      }
    case Disj(l, r) =>
      SentenceIsYield(l, accepts);
      SentenceIsYield(r, accepts);
      Between(Yield(l), Or, Yield(r), accepts);
  }

  lemma Beside(a: seq<Token>, b: seq<Token>, accepts: Primary -> bool)
    ensures AllWords(a + b) == AllWords(a) + AllWords(b)
    ensures AllReadable(a + b, accepts) <==> AllReadable(a, accepts) && AllReadable(b, accepts)
    ensures HasAction(a + b) <==> HasAction(a) || HasAction(b)
  {
    AllWordsAppend(a, b);
    AllReadableAppend(a, b, accepts);
    HasActionAppend(a, b);
  }

  lemma Between(a: seq<Token>, t: Token, b: seq<Token>, accepts: Primary -> bool)
    requires !t.Prim?
    ensures AllWords(a + [t] + b) == AllWords(a) + Words(t) + AllWords(b)
    ensures AllReadable(a + [t] + b, accepts) <==> AllReadable(a, accepts) && AllReadable(b, accepts)
    ensures HasAction(a + [t] + b) <==> HasAction(a) || HasAction(b)
  {
    OneWord(t);
    assert AllReadable([t], accepts) && !HasAction([t]) by { assert [t][1..] == []; }
    Beside(a, [t], accepts);
    Beside(a + [t], b, accepts);
  }

  lemma Wrapped(l: Token, a: seq<Token>, r: Token, accepts: Primary -> bool)
    requires !l.Prim? && !r.Prim?
    ensures AllWords([l] + a + [r]) == Words(l) + AllWords(a) + Words(r)
    ensures AllReadable([l] + a + [r], accepts) <==> AllReadable(a, accepts)
    ensures HasAction([l] + a + [r]) <==> HasAction(a)
  {
    Between([l] + a, r, [], accepts);
    Between([], l, a, accepts);
    assert [] + [l] == [l] && AllWords([]) == [] && [l] + a + [r] + [] == [l] + a + [r];
    assert [] + Words(l) == Words(l);
    assert AllWords([l] + a) + Words(r) + [] == AllWords([l] + a) + Words(r);
  }

  /** find accepts exactly the sentences of the grammar, and the empty command
      line. */
  lemma AcceptsSentences(words: seq<string>, accepts: Primary -> bool)
    ensures ParseWords(words, accepts).Ok? <==>
            words == [] || exists c :: Wf(c) && TreeReadable(c, accepts) && Sentence(c) == words
  {
    ParseAcceptsGrammar(words, accepts);
    if ParseWords(words, accepts).Ok? && words != [] {
      var ts := Items(words, 0, accepts).value;
      ItemsIff(words, ts, accepts);
      var c :| Wf(c) && Yield(c) == ts;
      SentenceIsYield(c, accepts);
    }
    if words == [] { assert Items(words, 0, accepts) == Ok([]); }
    forall c | Wf(c) && TreeReadable(c, accepts) && Sentence(c) == words ensures ParseWords(words, accepts).Ok? {
      SentenceIsYield(c, accepts);
      ItemsIff(words, Yield(c), accepts);
    }
  }

  /** What find builds from a sentence: its tree, joined by an AND to `-print` if and
      only if none of -print, -print0, -exec and -ok is named in it. */
  lemma ParsesSentence(c: Cst, accepts: Primary -> bool)
    requires Wf(c) && TreeReadable(c, accepts)
    ensures ParseWords(Sentence(c), accepts)
         == Ok(if NamesAction(c) then Tree(c) else EAnd(Tree(c), EPrim(Primary("-print", []))))
  {
    SentenceIsYield(c, accepts);
    ItemsIff(Sentence(c), Yield(c), accepts);
    ParseBuildsGrammarTree(Sentence(c), accepts, c);
  }

  /** From the words of an expression to its effect. */
  lemma RunsSentence<W(!new)>(c: Cst, accepts: Primary -> bool, cells: seq<Cell>, root: int,
                              run: (Primary, W) -> (int, W), w: W)
    requires Wf(c) && TreeReadable(c, accepts) && ZeroOne(run)
    requires ParseWords(Sentence(c), accepts).Ok? ==>
               Represents(cells, root, ParseWords(Sentence(c), accepts).value)
    ensures ParseWords(Sentence(c), accepts).Ok?
    ensures var (v, w2) := Eval(cells, root, ParseWords(Sentence(c), accepts).value, run, w);
            var (b, w1) := Meaning(c, TestOf(run), w);
            if NamesAction(c) then (v != 0, w2) == (b, w1)
            else if b then (v, w2) == run(Primary("-print", []), w1)
            else v == 0 && w2 == w1
  {
    ParsesSentence(c, accepts);
    SentenceIsYield(c, accepts);
    ItemsIff(Sentence(c), Yield(c), accepts);
    FindRunsExpression(Sentence(c), accepts, c, cells, root, run, w);
  }

  /** The truth of an expression whose tests change nothing. */
  predicate Holds(c: Cst, f: Primary -> bool) {
    match c
    case Atom(p) => f(p)
    case Paren(e) => Holds(e, f)
    case Neg(e) => !Holds(e, f)
    case Conj(l, _, r) => Holds(l, f) && Holds(r, f)
    case Disj(l, r) => Holds(l, f) || Holds(r, f)
  }

  /** Then the meaning is that truth, and the world is as it was. */
  lemma {:induction false} MeaningHolds<W(!new)>(c: Cst, f: Primary -> bool, test: (Primary, W) -> (bool, W), w: W)
    requires forall p :: test(p, w) == (f(p), w)
    ensures Meaning(c, test, w) == (Holds(c, f), w)
    decreases c
  {
    match c
    case Atom(_) =>
    case Paren(e) => MeaningHolds(e, f, test, w);
    case Neg(e) => MeaningHolds(e, f, test, w);
    case Conj(l, _, r) =>
      MeaningHolds(l, f, test, w);
      MeaningHolds(r, f, test, w);
    case Disj(l, r) =>
      MeaningHolds(l, f, test, w);
      MeaningHolds(r, f, test, w);
  }

  /** The primaries named, from left to right. */
  function Named(c: Cst): (ps: seq<Primary>)
    ensures ps != []
  {
    match c
    case Atom(p) => [p]
    case Paren(e) => Named(e)
    case Neg(e) => Named(e)
    case Conj(l, _, r) => Named(l) + Named(r)
    case Disj(l, r) => Named(l) + Named(r)
  }

  /** Those of them that are run: the left side first, and the right side only if the
      left one leaves it open. */
  function Ran(c: Cst, f: Primary -> bool): (ps: seq<Primary>)
    ensures ps != [] && ps[0] == Named(c)[0] && |ps| <= |Named(c)|
  {
    match c
    case Atom(p) => [p]
    case Paren(e) => Ran(e, f)
    case Neg(e) => Ran(e, f)
    case Conj(l, _, r) => Ran(l, f) + if Holds(l, f) then Ran(r, f) else []
    case Disj(l, r) => Ran(l, f) + if Holds(l, f) then [] else Ran(r, f)
  }

  /** For tests that answer by their primary and leave a record of it. */
  lemma {:induction false} RunsInOrder(c: Cst, f: Primary -> bool,
                                       test: (Primary, seq<Primary>) -> (bool, seq<Primary>), w: seq<Primary>)
    requires forall p, x :: test(p, x) == (f(p), x + [p])
    ensures Meaning(c, test, w) == (Holds(c, f), w + Ran(c, f))
    decreases c
  {
    match c
    case Atom(_) =>
    case Paren(e) => RunsInOrder(e, f, test, w);
    case Neg(e) => RunsInOrder(e, f, test, w);
    case Conj(l, _, r) =>
      RunsInOrder(l, f, test, w);
      RunsInOrder(r, f, test, w + Ran(l, f));
      Assoc(w, Ran(l, f), if Holds(l, f) then Ran(r, f) else []);
      assert (w + Ran(l, f)) + [] == w + Ran(l, f);
    case Disj(l, r) =>
      RunsInOrder(l, f, test, w);
      RunsInOrder(r, f, test, w + Ran(l, f));
      Assoc(w, Ran(l, f), if Holds(l, f) then [] else Ran(r, f));
      assert (w + Ran(l, f)) + [] == w + Ran(l, f);
  }

  /** `-name a -o -name b` finds what has either name. */
  lemma EitherName(accepts: Primary -> bool)
    requires accepts(Primary("-name", ["a"])) && accepts(Primary("-name", ["b"]))
    ensures var a, b := EPrim(Primary("-name", ["a"])), EPrim(Primary("-name", ["b"]));
            ParseWords(["-name", "a", "-o", "-name", "b"], accepts) ==
            Ok(EAnd(EOr(a, b), EPrim(Primary("-print", []))))
  {
    var c := Disj(Atom(Primary("-name", ["a"])), Atom(Primary("-name", ["b"])));
    assert Sentence(c) == ["-name", "a", "-o", "-name", "b"];
    ParsesSentence(c, accepts);
  }
}

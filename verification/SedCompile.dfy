/** Building sed's flat program: offsets of braces by a stack of open ones, jumps
    by looking labels up when the whole script has been read. */
module SedCompile {
  import opened Basics
  import opened Stacks
  import opened SedMachine
  import opened SedNested

  /** A command as it is read, before `{`, b and t know where they lead. */
  datatype Src =
    | SOpen(range: Range, negate: bool)
    | SClose
    | SLabel(name: string)
    | SBranch(range: Range, negate: bool, test: bool, dest: Option<string>)
    | SPlain(c: Cmd)

  datatype Error = ExtraClose | ExtraOpen | BadLabel
  datatype Result<+T> = Ok(value: T) | Err(error: Error)

  /** The program so far and the positions of its open braces. */
  datatype Comp = Comp(prog: seq<Cmd>, braces: Stack<nat>)

  /** The command as it is stored at first; b and t have no jump yet. */
  function Stored(x: Src): Cmd {
    match x
    case SOpen(range, negate) => Cmd(range, negate, Open(0))
    case SClose => CLOSE
    case SLabel(name) => Cmd(Range(Every, Ignore), false, Label(name))
    case SBranch(range, negate, test, _) => Cmd(range, negate, if test then Test(-1) else Branch(-1))
    case SPlain(c) => c
  }

  /** One turn of `compile` with `get_lbrace_arg` and `get_rbrace_arg`. */
  function CompileOne(c: Comp, x: Src): Result<Comp> {
    var prog := c.prog + [Stored(x)];
    if x.SOpen? then Ok(Comp(prog, Push(|c.prog|, c.braces)))
    else if x.SClose? then
      if c.braces == Empty || c.braces.top >= |prog| then Err(ExtraClose)
      else Ok(Comp(prog[c.braces.top := prog[c.braces.top].(op := Open(|c.prog|))], c.braces.rest))
    else Ok(c.(prog := prog))
  }

  function CompileFrom(c: Comp, src: seq<Src>): Result<Comp>
    decreases |src|
  {
    if src == [] then Ok(c)
    else
      match CompileOne(c, src[0])
      case Err(e) => Err(e)
      case Ok(d) => CompileFrom(d, src[1..])
  }

  /** `compile` and the check at the start of `run`. */
  function Compile(src: seq<Src>): Result<seq<Cmd>> {
    match CompileFrom(Comp([], Empty), src)
    case Err(e) => Err(e)
    case Ok(c) => if c.braces == Empty then Ok(c.prog + [LAST]) else Err(ExtraOpen)
  }

  // -------------------------------------------------------- braces balance

  /** What a nested script looks like when it is read. */
  function TokensItem(i: Item): (ts: seq<Src>)
    ensures |ts| == Size(i)
    decreases i
  {
    match i
    case Leaf(c) => [SPlain(c)]
    case Block(range, negate, body) => [SOpen(range, negate)] + Tokens(body) + [SClose]
  }

  function Tokens(p: Script): (ts: seq<Src>)
    ensures |ts| == Sizes(p)
    decreases p
  {
    match p
    case Nil => []
    case Cons(i, rest) => TokensItem(i) + Tokens(rest)
  }

  lemma {:induction false} CompileAppend(c: Comp, a: seq<Src>, b: seq<Src>)
    ensures CompileFrom(c, a + b) == match CompileFrom(c, a) { case Err(e) => Err(e) case Ok(d) => CompileFrom(d, b) }
    decreases |a|
  {
    if a == [] {
      assert a + b == b;
    } else {
      assert (a + b)[1..] == a[1..] + b;
      match CompileOne(c, a[0])
      case Err(_) =>
      case Ok(d) => CompileAppend(d, a[1..], b);
    }
  }

  lemma CompileSingle(c: Comp, x: Src)
    ensures CompileFrom(c, [x]) == CompileOne(c, x)
  {
    assert [x][1..] == [];
  }

  /** The commands of a nested script compile to its flat form. */
  lemma {:induction false} CompileScript(c: Comp, p: Script)
    ensures CompileFrom(c, Tokens(p)) == Ok(Comp(c.prog + Flat(p, |c.prog|), c.braces))
    decreases p
  {
    match p
    case Nil => assert c.prog + [] == c.prog;
    case Cons(i, rest) =>
      CompileItem(c, i);
      var d := Comp(c.prog + FlatItem(i, |c.prog|), c.braces);
      CompileScript(d, rest);
      CompileAppend(c, TokensItem(i), Tokens(rest));
      assert d.prog + Flat(rest, |d.prog|) == c.prog + (FlatItem(i, |c.prog|) + Flat(rest, |d.prog|));
  }

  lemma {:induction false} CompileItem(c: Comp, i: Item)
    ensures CompileFrom(c, TokensItem(i)) == Ok(Comp(c.prog + FlatItem(i, |c.prog|), c.braces))
    decreases i
  {
    match i
    case Leaf(l) => CompileSingle(c, SPlain(l));
    case Block(range, negate, body) =>
      var n := |c.prog|;
      var open := SOpen(range, negate);
      var d := Comp(c.prog + [Stored(open)], Push(n, c.braces));
      CompileSingle(c, open);
      CompileScript(d, body);
      var e := Comp(d.prog + Flat(body, n + 1), d.braces);
      CompileSingle(e, SClose);
      CompileAppend(d, Tokens(body), [SClose]);
      CompileAppend(c, [open], Tokens(body) + [SClose]);
      assert TokensItem(i) == [open] + (Tokens(body) + [SClose]);
      CloseBlock(c.prog, range, negate, Flat(body, n + 1));
  }

  /** Setting the offset of the brace at n turns the open block into a block. */
  lemma CloseBlock(before: seq<Cmd>, range: Range, negate: bool, body: seq<Cmd>)
    ensures var n := |before|;
            var prog := (before + [Cmd(range, negate, Open(0))] + body) + [CLOSE];
            prog[n := prog[n].(op := Open(n + 1 + |body|))]
            == before + ([Cmd(range, negate, Open(n + 1 + |body|))] + body + [CLOSE])
  {
  }

  /** Open blocks: what was read before each brace, innermost on top. */
  datatype Frame = Frame(before: Script, range: Range, negate: bool)

  function FrameTokens(fs: Stack<Frame>): seq<Src> {
    match fs
    case Empty => []
    case Push(f, rest) => FrameTokens(rest) + Tokens(f.before) + [SOpen(f.range, f.negate)]
  }

  function Append(p: Script, i: Item): Script {
    match p
    case Nil => Cons(i, Nil)
    case Cons(h, t) => Cons(h, Append(t, i))
  }

  lemma {:induction false} TokensAppend(p: Script, i: Item)
    ensures Tokens(Append(p, i)) == Tokens(p) + TokensItem(i)
    ensures ScriptOk(Append(p, i)) == (ScriptOk(p) && ItemOk(i))
    decreases p
  {
    if p.Cons? { TokensAppend(p.tail, i); }
  }

  /** Commands of a script without branches and labels. */
  predicate Simple(x: Src) { x.SOpen? || x.SClose? || (x.SPlain? && LeafOk(x.c)) }

  ghost predicate FramesOk(fs: Stack<Frame>) {
    match fs
    case Empty => true
    case Push(f, rest) => ScriptOk(f.before) && FramesOk(rest)
  }

  /** Whatever is read without error, with no brace left open, is a script. */
  lemma {:induction false} ReadsScript(c: Comp, src: seq<Src>, fs: Stack<Frame>, cur: Script) returns (p: Script)
    requires forall i :: 0 <= i < |src| ==> Simple(src[i])
    requires Depth(c.braces) == Depth(fs) && FramesOk(fs) && ScriptOk(cur)
    requires CompileFrom(c, src).Ok? && CompileFrom(c, src).value.braces == Empty
    ensures ScriptOk(p) && Tokens(p) == FrameTokens(fs) + Tokens(cur) + src
    decreases |src|, 1
  {
    if src == [] {
      p := cur;
      assert [] + Tokens(cur) + [] == Tokens(cur);
    } else {
      assert src == [src[0]] + src[1..];
      match src[0] {
        case SOpen(range, negate) => p := ReadsOpen(c, src[0], src[1..], fs, cur);
        case SClose => p := ReadsClose(c, src[1..], fs, cur);
        case SPlain(l) => p := ReadsPlain(c, l, src[1..], fs, cur);
      }
    }
  }

  lemma {:induction false} ReadsOpen(c: Comp, x: Src, rest: seq<Src>, fs: Stack<Frame>, cur: Script) returns (p: Script)
    requires forall i :: 0 <= i < |rest| ==> Simple(rest[i])
    requires Depth(c.braces) == Depth(fs) && FramesOk(fs) && ScriptOk(cur) && x.SOpen?
    requires var r := CompileFrom(CompileOne(c, x).value, rest); r.Ok? && r.value.braces == Empty
    ensures ScriptOk(p) && Tokens(p) == FrameTokens(fs) + Tokens(cur) + ([x] + rest)
    decreases |rest| + 1, 0
  {
    p := ReadsScript(CompileOne(c, x).value, rest, Push(Frame(cur, x.range, x.negate), fs), Nil);
    Regroup(FrameTokens(fs), Tokens(cur), [x], [], rest);
  }

  lemma {:induction false} ReadsClose(c: Comp, rest: seq<Src>, fs: Stack<Frame>, cur: Script) returns (p: Script)
    requires forall i :: 0 <= i < |rest| ==> Simple(rest[i])
    requires Depth(c.braces) == Depth(fs) && FramesOk(fs) && ScriptOk(cur) && CompileOne(c, SClose).Ok?
    requires var r := CompileFrom(CompileOne(c, SClose).value, rest); r.Ok? && r.value.braces == Empty
    ensures ScriptOk(p) && Tokens(p) == FrameTokens(fs) + Tokens(cur) + ([SClose] + rest)
    decreases |rest| + 1, 0
  {
    var f := fs.top;
    var block := Block(f.range, f.negate, cur);
    TokensAppend(f.before, block);
    p := ReadsScript(CompileOne(c, SClose).value, rest, fs.rest, Append(f.before, block));
    BlockRead(FrameTokens(fs.rest), Tokens(f.before), SOpen(f.range, f.negate), Tokens(cur), rest);
  }

  lemma {:induction false} ReadsPlain(c: Comp, l: Cmd, rest: seq<Src>, fs: Stack<Frame>, cur: Script)
    returns (p: Script)
    requires forall i :: 0 <= i < |rest| ==> Simple(rest[i])
    requires Depth(c.braces) == Depth(fs) && FramesOk(fs) && ScriptOk(cur) && LeafOk(l)
    requires var r := CompileFrom(CompileOne(c, SPlain(l)).value, rest); r.Ok? && r.value.braces == Empty
    ensures ScriptOk(p) && Tokens(p) == FrameTokens(fs) + Tokens(cur) + ([SPlain(l)] + rest)
    decreases |rest| + 1, 0
  {
    TokensAppend(cur, Leaf(l));
    p := ReadsScript(CompileOne(c, SPlain(l)).value, rest, fs, Append(cur, Leaf(l)));
    Regroup(FrameTokens(fs), Tokens(cur), [SPlain(l)], [], rest);
  }

  lemma Regroup(a: seq<Src>, b: seq<Src>, x: seq<Src>, e: seq<Src>, rest: seq<Src>)
    requires e == []
    ensures a + (b + x) + rest == a + b + (x + rest) && (a + b + x) + e + rest == a + b + (x + rest)
  {
  }

  lemma BlockRead(a: seq<Src>, b: seq<Src>, open: Src, body: seq<Src>, rest: seq<Src>)
    ensures a + (b + ([open] + body + [SClose])) + rest == (a + b + [open]) + body + ([SClose] + rest)
  {
  }

  /** A script without branches and labels compiles if and only if its braces
      nest, and then to the flat program of the nested script. */
  lemma CompilesIffNested(src: seq<Src>)
    requires forall i :: 0 <= i < |src| ==> Simple(src[i])
    ensures Compile(src).Ok? <==> exists p :: ScriptOk(p) && Tokens(p) == src
    ensures forall p :: ScriptOk(p) && Tokens(p) == src ==> Compile(src) == Ok(Program(p))
  {
    var c0 := Comp([], Empty);
    if Compile(src).Ok? {
      var p := ReadsScript(c0, src, Empty, Nil);
      assert [] + [] + src == src;
    }
    forall p | ScriptOk(p) && Tokens(p) == src ensures Compile(src) == Ok(Program(p)) {
      CompileScript(c0, p);
      assert [] + Flat(p, 0) == Flat(p, 0);
    }
  }
}

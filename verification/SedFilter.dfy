/** sed as a filter: what a script of one command with addresses makes of its whole
    input. */
module SedFilter {
  import opened Basics
  import opened SedMachine
  import opened SedNested
  import opened SedRanges
  import opened SedOutput

  function One(c: Cmd): Script { Cons(Leaf(c), Nil) }

  /** `p`, `d` and `c`. */
  predicate Filters(c: Cmd) { c.op == Apply(Print) || c.op.Delete? || c.op.Change? }

  /** What is printed for a line on which the command was in its range or not, and
      left the range open or not. */
  function Says(c: Cmd, quiet: bool, b: bool, open: bool, line: string): seq<string> {
    var line1 := if quiet then [] else [line];
    match c.op
    case Delete => if b then [] else line1
    case Change(text) => if !b then line1 else if open then [] else [text]
    case _ => (if b then [line] else []) + line1
  }

  /** The same for all lines consulted on. */
  function AllSays(w: World, c: Cmd, h: seq<Regs>, bs: seq<bool>): seq<string>
    requires |h| == |bs|
  {
    if h == [] then []
    else
      var n := |h| - 1;
      AllSays(w, c, h[..n], bs[..n]) + Says(c, w.quiet, bs[n], BitAfter(w, c, h), h[n].patt)
  }

  lemma AllSaysSnoc(w: World, c: Cmd, h: seq<Regs>, bs: seq<bool>, r: Regs, b: bool)
    requires |h| == |bs|
    ensures AllSays(w, c, h + [r], bs + [b])
         == AllSays(w, c, h, bs) + Says(c, w.quiet, b, BitAfter(w, c, h + [r]), r.patt)
  {
    assert (h + [r])[..|h|] == h && (bs + [b])[..|bs|] == bs;
  }

  // ------------------------------------------------------------- one cycle

  /** After a line was dealt with, says has been printed and the next line is there,
      or the run is over. */
  ghost predicate Ended(r: Regs, says: seq<string>, q: Regs) {
    && q.out == r.out + says && q.writes == []
    && (if r.input == [] then q.status == Halted else q.status == Going && OnNext(r, q))
  }

  ghost predicate OnNext(r: Regs, q: Regs)
    requires r.input != []
  {
    q.patt == r.input[0] && q.input == r.input[1..] && q.lineno == r.lineno + 1
  }

  lemma ScriptEnds(quiet: bool, r: Regs)
    requires r.writes == [] && r.status == Going
    ensures Ended(r, if quiet then [] else [r.patt], NewLine(DoWrites(AutoPrint(quiet, r)).(patt := "")))
  {
    Nothing(r.out);
    Nothing(r.out + [r.patt]);
  }

  lemma CutShort(r: Regs)
    requires r.writes == [] && r.status == Going
    ensures Ended(r, [], NewLine(r.(patt := "")))
  {
    Nothing(r.out);
  }

  lemma PrintedBefore(r: Regs, more: seq<string>, says: seq<string>, q: Regs)
    requires Ended(r.(out := r.out + more), says, q)
    ensures Ended(r, more + says, q)
  {
    Assoc(r.out, more, says);
  }

  /** Looking at the range changes no register but the last expression. */
  lemma ConsultKeeps(w: World, c: Cmd, bit: bool, r: Regs)
    ensures var q := Consult(w, c, bit, r).2;
            q == r.(status := q.status, lastre := q.lastre)
  {
  }

  lemma PassedBy(w: World, c: Cmd, s: State, s1: State)
    requires |s.inMatch| > 0 && InRange(EnvOf(w), c, 0, s) == (false, s1) && Alive(s1) && s1.r.writes == []
    ensures var t := Cycle(EnvOf(w), One(c), s);
            t.seen == s1.seen && t.inMatch == s1.inMatch && Ended(s1.r, if w.quiet then [] else [s1.r.patt], t.r)
  {
    OneMeans(EnvOf(w), c, 0, s);
    ScriptEnds(w.quiet, s1.r);
    assert Mean(EnvOf(w), One(c), 0, s) == (Go, s1);
  }

  lemma Printed(w: World, c: Cmd, s: State, s1: State)
    requires |s.inMatch| > 0 && InRange(EnvOf(w), c, 0, s) == (true, s1) && Alive(s1) && s1.r.writes == []
    requires c.op == Apply(Print)
    ensures var t := Cycle(EnvOf(w), One(c), s);
            && t.seen == s1.seen && t.inMatch == s1.inMatch
            && Ended(s1.r, [s1.r.patt] + if w.quiet then [] else [s1.r.patt], t.r)
  {
    OneMeans(EnvOf(w), c, 0, s);
    LeafMeans(EnvOf(w), c, Print, s);
    var r := s1.r.(out := s1.r.out + [s1.r.patt]);
    ScriptEnds(w.quiet, r);
    assert Mean(EnvOf(w), One(c), 0, s) == (Go, s1.(r := r));
    PrintedBefore(s1.r, [s1.r.patt], if w.quiet then [] else [s1.r.patt], Cycle(EnvOf(w), One(c), s).r);
  }

  lemma Deleted(w: World, c: Cmd, s: State, s1: State)
    requires |s.inMatch| > 0 && InRange(EnvOf(w), c, 0, s) == (true, s1) && Alive(s1) && s1.r.writes == []
    requires c.op == Delete
    ensures var t := Cycle(EnvOf(w), One(c), s);
            t.seen == s1.seen && t.inMatch == s1.inMatch && Ended(s1.r, [], t.r)
  {
    OneMeans(EnvOf(w), c, 0, s);
    CutShort(s1.r);
    assert Mean(EnvOf(w), One(c), 0, s) == (NewCycle(true), s1.(r := s1.r.(patt := "")));
  }

  lemma Changed(w: World, c: Cmd, s: State, s1: State, text: string)
    requires |s.inMatch| > 0 && InRange(EnvOf(w), c, 0, s) == (true, s1) && Alive(s1) && s1.r.writes == []
    requires c.op == Change(text)
    ensures var t := Cycle(EnvOf(w), One(c), s);
            && t.seen == s1.seen && t.inMatch == s1.inMatch
            && Ended(s1.r, if s1.inMatch[0] then [] else [text], t.r)
  {
    OneMeans(EnvOf(w), c, 0, s);
    var more := if s1.inMatch[0] then [] else [text];
    var r := s1.r.(out := s1.r.out + more);
    Nothing(s1.r.out);
    Nothing(more);
    CutShort(r);
    assert Mean(EnvOf(w), One(c), 0, s) == (NewCycle(true), s1.(r := r.(patt := "")));
    PrintedBefore(s1.r, more, [], Cycle(EnvOf(w), One(c), s).r);
  }

  /** A whole cycle. */
  lemma CycleSays(w: World, c: Cmd, s: State)
    requires |s.inMatch| > 0 && Alive(s) && s.r.writes == [] && Filters(c)
    ensures var (b, s1) := InRange(EnvOf(w), c, 0, s);
            var t := Cycle(EnvOf(w), One(c), s);
            && t.seen == s1.seen && t.inMatch == s1.inMatch
            && (if Alive(s1) then Ended(s.r, Says(c, w.quiet, b, s1.inMatch[0], s.r.patt), t.r) else t.r == s1.r)
  {
    ConsultKeeps(w, c, s.inMatch[0], s.r);
    var (b, s1) := InRange(EnvOf(w), c, 0, s);
    if !Alive(s1) {
      OneMeans(EnvOf(w), c, 0, s);
    } else if !b {
      PassedBy(w, c, s, s1);
      Nothing(if w.quiet then [] else [s.r.patt]);
    } else {
      match c.op
      case Apply(_) => Printed(w, c, s, s1);
      case Delete => Deleted(w, c, s, s1);
      case Change(text) => Changed(w, c, s, s1, text);
    }
  }

  // ----------------------------------------------------------- all of a run

  /** Line number i of the input, in the registers. */
  predicate At(lines: seq<string>, i: nat, r: Regs)
    requires i < |lines|
  {
    r.patt == lines[i] && r.input == lines[i + 1..] && r.lineno == i + 1
  }

  ghost predicate AllAt(lines: seq<string>, h: seq<Regs>) {
    |h| <= |lines| && forall i {:trigger h[i]} :: 0 <= i < |h| ==> At(lines, i, h[i])
  }

  /** The command has been consulted once on each line read before this one, and all
      has been printed that it says for them. */
  ghost predicate SoFar(w: World, c: Cmd, lines: seq<string>, s: State) {
    var h, bs := Hist(s.seen, 0), Answers(s.seen, 0);
    && Tracked(w, [c, LAST], s, 0) && AllAt(lines, h) && s.r.out == AllSays(w, c, h, bs)
    && (if |h| < |lines| then Alive(s) && At(lines, |h|, s.r) && s.r.writes == [] else s.r.status == Halted)
  }

  lemma OneMore(lines: seq<string>, h: seq<Regs>, r: Regs)
    requires AllAt(lines, h) && |h| < |lines| && At(lines, |h|, r)
    ensures AllAt(lines, h + [r])
  {
  }

  lemma NextAt(lines: seq<string>, i: nat, r: Regs, says: seq<string>, q: Regs)
    requires i < |lines| && At(lines, i, r) && Ended(r, says, q)
    ensures if i + 1 < |lines| then q.status == Going && At(lines, i + 1, q) else q.status == Halted
  {
  }

  /** Only the empty expression can be fatal. */
  predicate Plain(c: Cmd) { c.range.beg != LastRegex && c.range.end != LastRegex }

  lemma PlainGoes(w: World, c: Cmd, bit: bool, r: Regs)
    requires Plain(c) && r.status == Going
    ensures Consult(w, c, bit, r).2.status == Going
  {
  }

  lemma CycleSoFar(w: World, c: Cmd, lines: seq<string>, s: State) returns (t: State)
    requires Filters(c) && Plain(c) && SoFar(w, c, lines, s) && Alive(s)
    ensures t == Cycle(EnvOf(w), One(c), s) && SoFar(w, c, lines, t)
    ensures |Hist(t.seen, 0)| == |Hist(s.seen, 0)| + 1
  {
    var prog := [c, LAST];
    var (b, s1) := InRange(EnvOf(w), c, 0, s);
    var h, bs := Hist(s.seen, 0), Answers(s.seen, 0);
    t := Cycle(EnvOf(w), One(c), s);
    CycleSays(w, c, s);
    InRangeTracked(w, prog, 0, s, 0);
    HistSnoc(s.seen, Seen(0, s.r, b), 0);
    SameTracked(w, prog, s1, t, 0);
    PlainGoes(w, c, s.inMatch[0], s.r);
    AllSaysSnoc(w, c, h, bs, s.r, b);
    OneMore(lines, h, s.r);
    NextAt(lines, |h|, s.r, Says(c, w.quiet, b, s1.inMatch[0], s.r.patt), t.r);
  }

  lemma OneCycle(env: Env, p: Script, s: State, m: nat)
    requires Sizes(p) <= |s.inMatch| && m > 0
    ensures Cycles(env, p, s, m) == if Alive(s) then Cycles(env, p, Cycle(env, p, s), m - 1) else s
  {
  }

  /** Always true; it keeps `OnWay` folded where nothing says this of its arguments. */
  ghost predicate Mention(x: nat, s: State, n: nat) { true }

  /** n lines have been dealt with. */
  ghost predicate OnWay(w: World, c: Cmd, lines: seq<string>, s: State, n: nat) {
    && |s.inMatch| == 2
    && forall x: nat {:trigger Mention(x, s, n)} ::
         Mention(x, s, n) ==> Filters(c) && Plain(c) && SoFar(w, c, lines, s) && |Hist(s.seen, 0)| == n
  }

  lemma CycleOnWay(w: World, c: Cmd, lines: seq<string>, s: State, n: nat) returns (t: State)
    requires OnWay(w, c, lines, s, n) && Alive(s)
    ensures t == Cycle(EnvOf(w), One(c), s) && OnWay(w, c, lines, t, n + 1)
  {
    assert Mention(0, s, n);
    t := CycleSoFar(w, c, lines, s);
  }

  lemma {:induction false} CyclesOnWay(w: World, c: Cmd, lines: seq<string>, s: State, n: nat, m: nat)
    returns (t: State, k: nat)
    requires OnWay(w, c, lines, s, n)
    ensures t == Cycles(EnvOf(w), One(c), s, m) && OnWay(w, c, lines, t, k) && (Alive(t) ==> k == n + m)
    decreases m
  {
    if m == 0 || !Alive(s) {
      t, k := s, n;
    } else {
      var s1 := CycleOnWay(w, c, lines, s, n);
      t, k := CyclesOnWay(w, c, lines, s1, n + 1, m - 1);
      OneCycle(EnvOf(w), One(c), s, m);
    }
  }

  /** The first line has been read and nothing been done. */
  ghost predicate Starts(lines: seq<string>, s: State) {
    && lines != [] && At(lines, 0, s.r) && Alive(s) && s.r.out == s.r.writes == []
    && s.seen == [] && s.inMatch == [false, false]
  }

  /** The run over the whole input: it ends there, the command has been consulted once
      on each line, and was in range on the lines its addresses mean. */
  lemma WholeRun(w: World, c: Cmd, lines: seq<string>, s: State) returns (h: seq<Regs>, bs: seq<bool>)
    requires Filters(c) && Plain(c) && Starts(lines, s)
    ensures |h| == |lines| && AllAt(lines, h) && Row(w, c, h, bs)
    ensures var t := Cycles(EnvOf(w), One(c), s, |lines|);
            t.r.status == Halted && t.r.out == AllSays(w, c, h, bs)
  {
    assert s.inMatch[0] == BitAfter(w, c, []);
    assert SoFar(w, c, lines, s);
    var t, k := CyclesOnWay(w, c, lines, s, 0, |lines|);
    assert Mention(0, t, k);
    h, bs := Hist(t.seen, 0), Answers(t.seen, 0);
  }

  // -------------------------------------------------------- by expressions

  /** The lines for which f holds, in order. */
  function Keep(f: string -> bool, lines: seq<string>): seq<string> {
    if lines == [] then []
    else
      var n := |lines| - 1;
      Keep(f, lines[..n]) + if f(lines[n]) then [lines[n]] else []
  }

  lemma {:induction false} SaysKeep(w: World, c: Cmd, lines: seq<string>, h: seq<Regs>, bs: seq<bool>,
                                    f: string -> bool)
    requires |lines| == |h| == |bs| && (forall i {:trigger h[i]} :: 0 <= i < |h| ==> h[i].patt == lines[i])
    requires (c.op == Apply(Print) && w.quiet) || (c.op == Delete && !w.quiet)
    requires forall i {:trigger bs[i]} :: 0 <= i < |h| ==> bs[i] == (f(lines[i]) == c.op.Apply?)
    ensures AllSays(w, c, h, bs) == Keep(f, lines)
    decreases |h|
  {
    if h != [] {
      var n := |h| - 1;
      assert h[n].patt == lines[n] && bs[n] == (f(lines[n]) == c.op.Apply?);
      SaysKeep(w, c, lines[..n], h[..n], bs[..n], f);
      Nothing([lines[n]]);
    }
  }

  /** `sed -n /re/p` prints exactly the lines that match, `sed /re/d` exactly the
      others; `!` exchanges them. */
  lemma PrintsMatching(w: World, c: Cmd, re: nat, lines: seq<string>, s: State)
    requires Starts(lines, s) && c.range == Range(Regex(re), Ignore)
    requires (c.op == Apply(Print) && w.quiet) || (c.op == Delete && !w.quiet)
    ensures var t := Cycles(EnvOf(w), One(c), s, |lines|);
            && t.r.status == Halted
            && t.r.out == Keep(line => (w.matches(re, line) != c.negate) == c.op.Apply?, lines)
  {
    var h, bs := WholeRun(w, c, lines, s);
    forall i {:trigger bs[i]} | 0 <= i < |h| ensures bs[i] == (w.matches(re, lines[i]) != c.negate) {
      OneAddress(w, c, h, bs, i);
      assert At(lines, i, h[i]);
    }
    SaysKeep(w, c, lines, h, bs, line => (w.matches(re, line) != c.negate) == c.op.Apply?);
  }

  // ------------------------------------------------------------ by numbers

  /** After line i of the input a range `a,b` stays open if i is one of its lines and
      not the last. */
  lemma NumberedOpen(w: World, c: Cmd, h: seq<Regs>, a: nat, b: nat, i: nat)
    requires c.range == Range(LineNo(a), LineNo(b)) && i <= |h|
    requires forall k {:trigger h[k]} :: 0 <= k < |h| ==> h[k].lineno == k + 1
    ensures SedRanges.Open(w, c, h, i) <==> 1 <= a <= i < b
  {
    if 1 <= a <= i < b {
      LineOf(h, a);
      forall k {:trigger h[k]} | a - 1 < k < i ensures !First(w, c, h[k]) && !End(w, c, h[k]) {
        assert h[k].lineno == k + 1;
      }
      assert OpenFrom(w, c, h, a - 1, i);
    }
    if SedRanges.Open(w, c, h, i) {
      var j :| 0 <= j < i && OpenFrom(w, c, h, j, i);
      assert h[j].lineno == j + 1 == a;
      if a < b <= i { LineOf(h, b); }
    }
  }

  /** What is printed for the lines up to i. */
  function NumberedSays(c: Cmd, quiet: bool, a: nat, b: nat, lines: seq<string>, i: nat): seq<string>
    requires i <= |lines|
  {
    if i == 0 then []
    else
      NumberedSays(c, quiet, a, b, lines, i - 1)
      + Says(c, quiet, Between(a, b, i) != c.negate, 1 <= a <= i < b, lines[i - 1])
  }

  lemma {:induction false} SaysNumbered(w: World, c: Cmd, lines: seq<string>, h: seq<Regs>, bs: seq<bool>,
                                        a: nat, b: nat)
    requires c.range == Range(LineNo(a), LineNo(b)) && AllAt(lines, h) && Row(w, c, h, bs)
    ensures AllSays(w, c, h, bs) == NumberedSays(c, w.quiet, a, b, lines, |h|)
    decreases |h|
  {
    if h != [] {
      var n := |h| - 1;
      RowPart(w, c, h, bs, n);
      SaysNumbered(w, c, lines, h[..n], bs[..n], a, b);
      LastNumbered(w, c, lines, h, bs, a, b);
    }
  }

  lemma LastNumbered(w: World, c: Cmd, lines: seq<string>, h: seq<Regs>, bs: seq<bool>, a: nat, b: nat)
    requires c.range == Range(LineNo(a), LineNo(b)) && AllAt(lines, h) && Row(w, c, h, bs) && h != []
    ensures var n := |h| - 1;
            && bs[n] == (Between(a, b, |h|) != c.negate) && h[n].patt == lines[n]
            && BitAfter(w, c, h) == (1 <= a <= |h| < b)
  {
    AllNumbered(lines, h);
    NumberedLines(w, c, h, bs, a, b, |h| - 1);
    NumberedOpen(w, c, h, a, b, |h|);
    BitIsOpen(w, c, h, bs);
    assert At(lines, |h| - 1, h[|h| - 1]);
  }

  lemma AllNumbered(lines: seq<string>, h: seq<Regs>)
    requires AllAt(lines, h)
    ensures forall k {:trigger h[k]} :: 0 <= k < |h| ==> h[k].lineno == k + 1
  {
    forall k {:trigger h[k]} | 0 <= k < |h| ensures h[k].lineno == k + 1 { assert At(lines, k, h[k]); }
  }

  lemma NumberedRun(w: World, c: Cmd, a: nat, b: nat, lines: seq<string>, s: State)
    requires Filters(c) && Starts(lines, s) && c.range == Range(LineNo(a), LineNo(b))
    ensures var t := Cycles(EnvOf(w), One(c), s, |lines|);
            t.r.status == Halted && t.r.out == NumberedSays(c, w.quiet, a, b, lines, |lines|)
  {
    var h, bs := WholeRun(w, c, lines, s);
    SaysNumbered(w, c, lines, h, bs, a, b);
  }

  /** How many of i lines come before the range `a,b`, and how many before its end,
      which is its first line if the second number is not greater.  There is no
      line 0. */
  function Before(a: nat, i: nat): nat { if 1 <= a <= i then a - 1 else i }

  function Through(a: nat, b: nat, i: nat): nat { if a == 0 || i <= LastOf(a, b) then i else LastOf(a, b) }

  function LastOf(a: nat, b: nat): nat { if a < b then b else a }

  lemma SliceGrows(lines: seq<string>, a: nat, n: nat)
    requires a <= n < |lines|
    ensures lines[a..n] + [lines[n]] == lines[a..n + 1] && lines[n..n] == lines[n + 1..n + 1] == []
  {
  }

  lemma {:induction false} PrintedSlice(c: Cmd, a: nat, b: nat, lines: seq<string>, i: nat)
    requires c.op == Apply(Print) && !c.negate && i <= |lines|
    ensures NumberedSays(c, true, a, b, lines, i) == lines[Before(a, i)..Through(a, b, i)]
  {
    if i > 0 {
      PrintedSlice(c, a, b, lines, i - 1);
      SliceStep(lines, a, b, i - 1);
      Nothing([lines[i - 1]]);
    }
  }

  lemma SliceStep(lines: seq<string>, a: nat, b: nat, i: nat)
    requires i < |lines|
    ensures lines[Before(a, i)..Through(a, b, i)] + (if Between(a, b, i + 1) then [lines[i]] else [])
         == lines[Before(a, i + 1)..Through(a, b, i + 1)]
  {
    SliceGrows(lines, Before(a, i), i);
    if !Between(a, b, i + 1) { Nothing(lines[Before(a, i)..Through(a, b, i)]); }
  }

  /** What replaces lines a to b. */
  lemma {:induction false} CutSlice(c: Cmd, a: nat, b: nat, lines: seq<string>, i: nat)
    requires (c.op.Delete? || c.op.Change?) && !c.negate && i <= |lines|
    ensures NumberedSays(c, false, a, b, lines, i)
         == lines[..Before(a, i)]
            + (if c.op.Change? && 1 <= a && LastOf(a, b) <= i then [c.op.text] else [])
            + lines[Through(a, b, i)..i]
  {
    if i > 0 {
      CutSlice(c, a, b, lines, i - 1);
      var more := if c.op.Change? && 1 <= a && LastOf(a, b) <= i - 1 then [c.op.text] else [];
      CutGrows(lines, Before(a, i - 1), more, Through(a, b, i - 1), i - 1);
      Nothing(NumberedSays(c, false, a, b, lines, i - 1));
    }
  }

  lemma CutGrows(lines: seq<string>, a: nat, more: seq<string>, z: nat, n: nat)
    requires a <= n < |lines| && z <= n
    ensures lines[..a] + more + lines[z..n] + [lines[n]] == lines[..a] + more + lines[z..n + 1]
    ensures lines[..n] + [lines[n]] == lines[..n + 1]
    ensures lines[n..n] == lines[n + 1..n + 1] == []
    ensures forall x: seq<string> :: lines[..a] + [] + [] + x == lines[..a] + x + []
  {
  }

  /** `sed -n a,bp` prints exactly the lines from a to b, or a alone if b is not
      after it. */
  lemma PrintsLines(w: World, c: Cmd, a: nat, b: nat, lines: seq<string>, s: State)
    requires w.quiet && c == Cmd(Range(LineNo(a), LineNo(b)), false, Apply(Print)) && Starts(lines, s)
    ensures var t := Cycles(EnvOf(w), One(c), s, |lines|);
            t.r.status == Halted && t.r.out == lines[Before(a, |lines|)..Through(a, b, |lines|)]
  {
    NumberedRun(w, c, a, b, lines, s);
    PrintedSlice(c, a, b, lines, |lines|);
  }

  /** `sed a,bd` prints exactly the others; `a,bc` puts its text in their place, if
      the range comes to its end. */
  lemma CutsLines(w: World, c: Cmd, a: nat, b: nat, lines: seq<string>, s: State)
    requires !w.quiet && c.range == Range(LineNo(a), LineNo(b)) && !c.negate && (c.op.Delete? || c.op.Change?)
    requires Starts(lines, s)
    ensures var t := Cycles(EnvOf(w), One(c), s, |lines|);
            && t.r.status == Halted
            && t.r.out == lines[..Before(a, |lines|)]
                          + (if c.op.Change? && 1 <= a && LastOf(a, b) <= |lines| then [c.op.text] else [])
                          + lines[Through(a, b, |lines|)..]
  {
    NumberedRun(w, c, a, b, lines, s);
    CutSlice(c, a, b, lines, |lines|);
  }
}

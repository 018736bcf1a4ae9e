/** Which lines a command of sed is carried out on. */
module SedRanges {
  import opened Basics
  import opened SedMachine
  import opened SedNested

  // ------------------------------------------------------------- addresses

  /** An address and a line, with the regular expression used last. */
  ghost predicate Hits(w: World, a: Addr, r: Regs) {
    || a == Every || a == LineNo(r.lineno) || (a == LastLine && r.input == [])
    || (a.Regex? && w.matches(a.re, r.patt))
    || (a == LastRegex && r.lastre.Some? && w.matches(r.lastre.value, r.patt))
  }

  function Used(a: Addr, r: Regs): Regs { if a.Regex? then r.(lastre := Some(a.re)) else r }

  lemma MatchAddrHits(w: World, a: Addr, r: Regs)
    requires r.status == Going
    ensures var (m, r1) := MatchAddr(w, a, r);
            && (r1.status != Going <==> a == LastRegex && r.lastre == None)
            && (r1.status == Going ==> m == Hits(w, a, r) && r1 == Used(a, r))
  {
  }

  ghost predicate First(w: World, c: Cmd, r: Regs) { Hits(w, c.range.beg, r) }

  /** The second address is looked at after the first one. */
  ghost predicate End(w: World, c: Cmd, r: Regs) { Hits(w, c.range.end, Used(c.range.beg, r)) }

  // ------------------------------------------------------ a row of consults

  /** The bit of a command after the consults made with h, beginning with a closed
      range. */
  function BitAfter(w: World, c: Cmd, h: seq<Regs>): bool {
    if h == [] then false else Consult(w, c, BitAfter(w, c, h[..|h| - 1]), h[|h| - 1]).1
  }

  /** A consult with the answer b, and no fatal error. */
  ghost predicate Answered(w: World, c: Cmd, bit: bool, r: Regs, b: bool) {
    r.status == Going && Consult(w, c, bit, r).2.status == Going && Consult(w, c, bit, r).0 == b
  }

  /** The consults made with h were answered bs. */
  ghost predicate Row(w: World, c: Cmd, h: seq<Regs>, bs: seq<bool>)
    decreases |h|
  {
    && |h| == |bs|
    && (h != [] ==>
          var n := |h| - 1;
          Row(w, c, h[..n], bs[..n]) && Answered(w, c, BitAfter(w, c, h[..n]), h[n], bs[n]))
  }

  lemma RowSnoc(w: World, c: Cmd, h: seq<Regs>, bs: seq<bool>, r: Regs, b: bool)
    requires Row(w, c, h, bs) && Answered(w, c, BitAfter(w, c, h), r, b)
    ensures Row(w, c, h + [r], bs + [b])
  {
    assert (h + [r])[..|h|] == h && (bs + [b])[..|bs|] == bs;
  }

  lemma BitSnoc(w: World, c: Cmd, h: seq<Regs>, r: Regs)
    ensures BitAfter(w, c, h + [r]) == Consult(w, c, BitAfter(w, c, h), r).1
  {
    assert (h + [r])[..|h|] == h;
  }

  lemma {:induction false} RowPart(w: World, c: Cmd, h: seq<Regs>, bs: seq<bool>, n: nat)
    requires Row(w, c, h, bs) && n <= |h|
    ensures Row(w, c, h[..n], bs[..n])
    decreases |h|
  {
    if n < |h| {
      RowPart(w, c, h[..|h| - 1], bs[..|h| - 1], n);
      assert h[..|h| - 1][..n] == h[..n] && bs[..|h| - 1][..n] == bs[..n];
    } else {
      assert h[..n] == h && bs[..n] == bs;
    }
  }

  /** The first address was met at j, where the second was not a line already
      reached, and neither was met since. */
  ghost predicate OpenFrom(w: World, c: Cmd, h: seq<Regs>, j: int, i: int)
    requires 0 <= j < i <= |h|
  {
    && First(w, c, h[j]) && !Passed(c, h[j])
    && forall k {:trigger h[k]} :: j < k < i ==> !First(w, c, h[k]) && !End(w, c, h[k])
  }

  predicate Passed(c: Cmd, r: Regs) { c.range.end.LineNo? && c.range.end.n <= r.lineno }

  ghost predicate Open(w: World, c: Cmd, h: seq<Regs>, i: int)
    requires 0 <= i <= |h|
  {
    exists j :: 0 <= j < i && OpenFrom(w, c, h, j, i)
  }

  /** The meaning of two addresses: the line meets the first, or the range has been
      opened by one before and not closed by one between. */
  ghost predicate InSpan(w: World, c: Cmd, h: seq<Regs>, i: int)
    requires 0 <= i < |h|
  {
    First(w, c, h[i]) || Open(w, c, h, i)
  }

  lemma OpenNext(w: World, c: Cmd, h: seq<Regs>, i: nat)
    requires i < |h|
    ensures Open(w, c, h, i + 1) <==>
            if First(w, c, h[i]) then !Passed(c, h[i]) else Open(w, c, h, i) && !End(w, c, h[i])
  {
    if First(w, c, h[i]) {
      if !Passed(c, h[i]) { assert OpenFrom(w, c, h, i, i + 1); }
    } else if Open(w, c, h, i) && !End(w, c, h[i]) {
      var j :| 0 <= j < i && OpenFrom(w, c, h, j, i);
      assert OpenFrom(w, c, h, j, i + 1);
    }
    if Open(w, c, h, i + 1) {
      var j :| 0 <= j < i + 1 && OpenFrom(w, c, h, j, i + 1);
      if j < i { assert OpenFrom(w, c, h, j, i); }
    }
  }

  lemma OpenPart(w: World, c: Cmd, h: seq<Regs>, n: nat, i: nat)
    requires i <= n <= |h|
    ensures Open(w, c, h[..n], i) == Open(w, c, h, i)
  {
    var g := h[..n];
    if Open(w, c, g, i) {
      var j :| 0 <= j < i && OpenFrom(w, c, g, j, i);
      forall k {:trigger h[k]} | j < k < i ensures !First(w, c, h[k]) && !End(w, c, h[k]) { assert h[k] == g[k]; }
      assert OpenFrom(w, c, h, j, i);
    }
    if Open(w, c, h, i) {
      var j :| 0 <= j < i && OpenFrom(w, c, h, j, i);
      forall k {:trigger g[k]} | j < k < i ensures !First(w, c, g[k]) && !End(w, c, g[k]) { assert h[k] == g[k]; }
      assert OpenFrom(w, c, g, j, i);
    }
  }

  /** One consult with two addresses. */
  lemma TwoAddresses(w: World, c: Cmd, bit: bool, r: Regs, b: bool)
    requires c.range.end != Ignore && Answered(w, c, bit, r, b)
    ensures b == Bit(First(w, c, r) || bit, c.negate)
    ensures Consult(w, c, bit, r).1 == if First(w, c, r) then !Passed(c, r) else bit && !End(w, c, r)
  {
    MatchAddrHits(w, c.range.beg, r);
    MatchAddrHits(w, c.range.end, Used(c.range.beg, r));
  }

  lemma {:induction false} BitIsOpen(w: World, c: Cmd, h: seq<Regs>, bs: seq<bool>)
    requires c.range.end != Ignore && Row(w, c, h, bs)
    ensures BitAfter(w, c, h) <==> Open(w, c, h, |h|)
    decreases |h|
  {
    if h != [] {
      var n := |h| - 1;
      BitIsOpen(w, c, h[..n], bs[..n]);
      OpenPart(w, c, h, n, n);
      TwoAddresses(w, c, BitAfter(w, c, h[..n]), h[n], bs[n]);
      OpenNext(w, c, h, n);
    }
  }

  lemma LastSpan(w: World, c: Cmd, h: seq<Regs>, bs: seq<bool>)
    requires c.range.end != Ignore && Row(w, c, h, bs) && h != []
    ensures bs[|h| - 1] == (InSpan(w, c, h, |h| - 1) != c.negate)
  {
    var n := |h| - 1;
    BitIsOpen(w, c, h[..n], bs[..n]);
    OpenPart(w, c, h, n, n);
    TwoAddresses(w, c, BitAfter(w, c, h[..n]), h[n], bs[n]);
  }

  /** A command with two addresses is in range exactly on the lines of its spans; `!`
      is the complement. */
  lemma SpanLines(w: World, c: Cmd, h: seq<Regs>, bs: seq<bool>, i: nat)
    requires c.range.end != Ignore && Row(w, c, h, bs) && i < |h|
    ensures bs[i] == (InSpan(w, c, h, i) != c.negate)
  {
    RowPart(w, c, h, bs, i + 1);
    LastSpan(w, c, h[..i + 1], bs[..i + 1]);
    OpenPart(w, c, h, i + 1, i);
  }

  lemma ClosedConsult(w: World, c: Cmd, r: Regs, b: bool)
    requires c.range.end == Ignore && Answered(w, c, false, r, b)
    ensures !Consult(w, c, false, r).1 && b == (First(w, c, r) != c.negate)
  {
    MatchAddrHits(w, c.range.beg, r);
  }

  lemma {:induction false} NeverOpen(w: World, c: Cmd, h: seq<Regs>, bs: seq<bool>)
    requires c.range.end == Ignore && Row(w, c, h, bs)
    ensures !BitAfter(w, c, h) && (h != [] ==> bs[|h| - 1] == (First(w, c, h[|h| - 1]) != c.negate))
    decreases |h|
  {
    if h != [] {
      var n := |h| - 1;
      NeverOpen(w, c, h[..n], bs[..n]);
      ClosedConsult(w, c, h[n], bs[n]);
    }
  }

  /** One with at most one address, exactly on those that meet it. */
  lemma OneAddress(w: World, c: Cmd, h: seq<Regs>, bs: seq<bool>, i: nat)
    requires c.range.end == Ignore && Row(w, c, h, bs) && i < |h|
    ensures bs[i] == (First(w, c, h[i]) != c.negate)
  {
    RowPart(w, c, h, bs, i + 1);
    NeverOpen(w, c, h[..i + 1], bs[..i + 1]);
  }

  /** The lines from m to n, or m alone if n is not after it. */
  predicate Between(m: int, n: int, line: int) { 1 <= m <= line <= if m < n then n else m }

  /** On lines 1, 2, 3 and so on, `m,n` are these lines. */
  lemma NumberedLines(w: World, c: Cmd, h: seq<Regs>, bs: seq<bool>, m: int, n: int, i: nat)
    requires c.range == Range(LineNo(m), LineNo(n)) && Row(w, c, h, bs) && i < |h|
    requires forall k {:trigger h[k]} :: 0 <= k < |h| ==> h[k].lineno == k + 1
    ensures bs[i] == (Between(m, n, i + 1) != c.negate)
  {
    SpanLines(w, c, h, bs, i);
    NumberedSpan(w, c, h, m, n, i);
  }

  lemma LineOf(h: seq<Regs>, n: int)
    requires 1 <= n <= |h| && forall k {:trigger h[k]} :: 0 <= k < |h| ==> h[k].lineno == k + 1
    ensures h[n - 1].lineno == n
  {
  }

  lemma NumberedSpan(w: World, c: Cmd, h: seq<Regs>, m: int, n: int, i: nat)
    requires c.range == Range(LineNo(m), LineNo(n)) && i < |h|
    requires forall k {:trigger h[k]} :: 0 <= k < |h| ==> h[k].lineno == k + 1
    ensures InSpan(w, c, h, i) <==> Between(m, n, i + 1)
  {
    assert h[i].lineno == i + 1;
    if 1 <= m <= i && m < n && i + 1 <= n {
      assert h[m - 1].lineno == m;
      forall k {:trigger h[k]} | m - 1 < k < i ensures !First(w, c, h[k]) && !End(w, c, h[k]) {
        assert h[k].lineno == k + 1;
      }
      assert OpenFrom(w, c, h, m - 1, i);
    }
    if Open(w, c, h, i) {
      var j :| 0 <= j < i && OpenFrom(w, c, h, j, i);
      assert h[j].lineno == j + 1 == m;
      if m < n <= i { LineOf(h, n); }
    }
  }

  // ----------------------------------------------------- consults in a run

  /** The registers that command k was consulted with, and the answers. */
  function Hist(seen: seq<Seen>, k: int): seq<Regs> {
    if seen == [] then []
    else
      var n := |seen| - 1;
      Hist(seen[..n], k) + if seen[n].k == k then [seen[n].r] else []
  }

  function Answers(seen: seq<Seen>, k: int): (bs: seq<bool>)
    ensures |bs| == |Hist(seen, k)|
  {
    if seen == [] then []
    else
      var n := |seen| - 1;
      Answers(seen[..n], k) + if seen[n].k == k then [seen[n].answer] else []
  }

  lemma HistSnoc(seen: seq<Seen>, x: Seen, k: int)
    ensures Hist(seen + [x], k) == if x.k == k then Hist(seen, k) + [x.r] else Hist(seen, k)
    ensures Answers(seen + [x], k) == if x.k == k then Answers(seen, k) + [x.answer] else Answers(seen, k)
  {
    assert (seen + [x])[..|seen|] == seen;
    assert Hist(seen, k) + [] == Hist(seen, k) && Answers(seen, k) + [] == Answers(seen, k);
  }

  lemma {:induction false} HistCount(seen: seq<Seen>, k: int)
    ensures |Hist(seen, k)| == multiset(Numbers(seen))[k]
    decreases |seen|
  {
    if seen != [] {
      var n := |seen| - 1;
      HistCount(seen[..n], k);
      assert Numbers(seen) == Numbers(seen[..n]) + [seen[n].k as int];
      CountPlus(Numbers(seen[..n]), [seen[n].k as int], k);
    }
  }

  /** The bit of command k is what its consults so far have made of it, and these
      were answered as the row of them says. */
  ghost predicate Tracked(w: World, prog: seq<Cmd>, s: State, k: nat)
    requires k < |prog|
  {
    && |s.inMatch| == |prog| && s.inMatch[k] == BitAfter(w, prog[k], Hist(s.seen, k))
    && (s.r.status != Fatal ==> Row(w, prog[k], Hist(s.seen, k), Answers(s.seen, k)))
  }

  lemma ConsultStatus(w: World, c: Cmd, bit: bool, r: Regs)
    requires r.status == Going
    ensures Consult(w, c, bit, r).2.status != Fatal ==> Consult(w, c, bit, r).2.status == Going
    ensures Consult(w, c, bit, r).2.lineno == r.lineno
  {
  }

  /** A consult of command j keeps what is known of command k. */
  lemma InRangeTracked(w: World, prog: seq<Cmd>, j: nat, s: State, k: nat)
    requires k < |prog| && j < |prog| && Ranged(prog[k]) && Tracked(w, prog, s, k) && Alive(s)
    ensures Tracked(w, prog, InRange(EnvOf(w), prog[j], j, s).1, k)
  {
    if j == k {
      OwnConsult(w, prog, s, k);
    } else {
      var (b, bit, r) := Consult(w, prog[j], s.inMatch[j], s.r);
      HistSnoc(s.seen, Seen(j, s.r, b), k);
    }
  }

  lemma OwnConsult(w: World, prog: seq<Cmd>, s: State, k: nat)
    requires k < |prog| && Ranged(prog[k]) && Tracked(w, prog, s, k) && Alive(s)
    ensures Tracked(w, prog, InRange(EnvOf(w), prog[k], k, s).1, k)
  {
    var h, bs := Hist(s.seen, k), Answers(s.seen, k);
    var (b, bit, r) := Consult(w, prog[k], s.inMatch[k], s.r);
    HistSnoc(s.seen, Seen(k, s.r, b), k);
    ConsultStatus(w, prog[k], s.inMatch[k], s.r);
    BitSnoc(w, prog[k], h, s.r);
    if r.status != Fatal { RowSnoc(w, prog[k], h, bs, s.r, b); }
  }

  lemma {:induction false} UpdateTracked(w: World, prog: seq<Cmd>, beg: nat, end: int, s: State, k: nat)
    requires k < |prog| && end <= |prog| && Ranged(prog[k]) && Tracked(w, prog, s, k)
    ensures Tracked(w, prog, UpdateRanges(EnvOf(w), prog, beg, end, s), k)
    decreases end - beg
  {
    if beg < end && Alive(s) {
      var s1 := InRange(EnvOf(w), prog[beg], beg, s).1;
      InRangeTracked(w, prog, beg, s, k);
      UpdateTracked(w, prog, beg + 1, end, s1, k);
      assert UpdateRanges(EnvOf(w), prog, beg, end, s) == UpdateRanges(EnvOf(w), prog, beg + 1, end, s1);
    }
  }

  /** Only the bit, the record and whether there was a fatal error matter. */
  lemma SameTracked(w: World, prog: seq<Cmd>, s: State, t: State, k: nat)
    requires k < |prog| && Tracked(w, prog, s, k) && t.inMatch == s.inMatch && t.seen == s.seen
    requires t.r.status != Fatal ==> s.r.status != Fatal
    ensures Tracked(w, prog, t, k)
  {
  }

  lemma NewNextTracked(w: World, prog: seq<Cmd>, pc: nat, s: State, k: nat)
    requires k < |prog| && pc < |prog| && Ranged(prog[k]) && Tracked(w, prog, s, k)
    ensures Tracked(w, prog, NewNext(EnvOf(w), prog, pc, s), k)
  {
    var s1 := s.(r := s.r.(patt := ""));
    SameTracked(w, prog, s, s1, k);
    UpdateTracked(w, prog, pc + 1, |prog|, s1, k);
    NewNextLast(EnvOf(w), prog, pc, s);
    SameTracked(w, prog, UpdateRanges(EnvOf(w), prog, pc + 1, |prog|, s1), NewNext(EnvOf(w), prog, pc, s), k);
  }

  /** After the ranges are up to date only the line is read. */
  lemma NewNextLast(env: Env, prog: seq<Cmd>, pc: nat, s: State)
    requires |s.inMatch| == |prog| && pc < |prog|
    ensures var t, u := NewNext(env, prog, pc, s), UpdateRanges(env, prog, pc + 1, |prog|, s.(r := s.r.(patt := "")));
            && t.seen == u.seen && t.inMatch == u.inMatch && (t.r.status != Fatal ==> u.r.status != Fatal)
            && (Alive(t) ==> t.r.lineno == u.r.lineno + 1)
  {
  }

  lemma AfterTracked(w: World, prog: seq<Cmd>, pc: nat, b: bool, s: State, k: nat)
    requires k < |prog| && pc < |prog| && Ranged(prog[k]) && Ranged(prog[pc]) && JumpsInside(prog)
    requires Tracked(w, prog, s, k) && Alive(s)
    ensures Tracked(w, prog, AfterRange(EnvOf(w), prog, pc, b, s).1, k)
  {
    assert JumpOk(prog, pc);
    match prog[pc].op
    case Open(offset) => UpdateTracked(w, prog, pc + 1, offset, s, k);
    case Delete => NewNextTracked(w, prog, pc, s, k);
    case DeleteFirst =>
      var n := FirstNewline(s.r.patt);
      if n < |s.r.patt| {
        UpdateTracked(w, prog, pc + 1, |prog|, s.(r := s.r.(patt := s.r.patt[n + 1..])), k);
      } else {
        NewNextTracked(w, prog, pc, s, k);
      }
    case Change(text) =>
      NewNextTracked(w, prog, pc, if !s.inMatch[pc] then s.(r := s.r.(out := s.r.out + [text])) else s, k);
    case Branch(jump) => UpdateTracked(w, prog, pc + 1, if jump > pc then jump else |prog|, s, k);
    case Test(jump) => UpdateTracked(w, prog, pc + 1, if jump > pc then jump else |prog|, s, k);
    case _ =>
  }

  lemma StepTracked(w: World, prog: seq<Cmd>, pc: nat, s: State, k: nat)
    requires k < |prog| && pc < |prog| && Ranged(prog[k]) && JumpsInside(prog) && Tracked(w, prog, s, k) && Alive(s)
    ensures Tracked(w, prog, Step(EnvOf(w), prog, pc, s).1, k)
  {
    if prog[pc].op.Last? {
      NewNextTracked(w, prog, pc, s.(r := DoWrites(AutoPrint(w.quiet, s.r))), k);
    } else if Ranged(prog[pc]) {
      InRangeTracked(w, prog, pc, s, k);
      var (b, s1) := InRange(EnvOf(w), prog[pc], pc, s);
      if Alive(s1) { AfterTracked(w, prog, pc, b, s1, k); }
    }
  }

  /** The start of a run: nothing consulted and all ranges closed. */
  ghost predicate Fresh(s: State) {
    s.seen == [] && forall k :: 0 <= k < |s.inMatch| ==> !s.inMatch[k]
  }

  lemma {:induction false} RunTracked(w: World, prog: seq<Cmd>, ps: seq<int>, ss: seq<State>, n: nat, k: nat)
    requires IsRun(EnvOf(w), prog, ps, ss) && n < |ps| && k < |prog| && Ranged(prog[k]) && Fresh(ss[0])
    ensures Tracked(w, prog, ss[n], k)
    decreases n
  {
    if n > 0 {
      RunTracked(w, prog, ps, ss, n - 1, k);
      RunInside(EnvOf(w), prog, ps, ss, n - 1);
      assert Turn(EnvOf(w), prog, ps[n - 1], ss[n - 1], ps[n], ss[n]);
      StepTracked(w, prog, ps[n - 1], ss[n - 1], k);
    }
  }

  /** On every run, whatever the script branches on, each command with two addresses
      was in range exactly on the lines of its spans among those it was consulted
      on, and each with one on those that meet it. */
  lemma RunSpans(w: World, prog: seq<Cmd>, ps: seq<int>, ss: seq<State>, n: nat, k: nat)
    requires IsRun(EnvOf(w), prog, ps, ss) && n < |ps| && k < |prog| && Ranged(prog[k]) && Fresh(ss[0])
    requires ss[n].r.status != Fatal
    ensures var c, h, bs := prog[k], Hist(ss[n].seen, k), Answers(ss[n].seen, k);
            forall i :: 0 <= i < |h| ==>
              bs[i] == ((if c.range.end == Ignore then First(w, c, h[i]) else InSpan(w, c, h, i)) != c.negate)
  {
    RunTracked(w, prog, ps, ss, n, k);
    var c, h, bs := prog[k], Hist(ss[n].seen, k), Answers(ss[n].seen, k);
    forall i | 0 <= i < |h|
      ensures bs[i] == ((if c.range.end == Ignore then First(w, c, h[i]) else InSpan(w, c, h, i)) != c.negate)
    {
      if c.range.end == Ignore { OneAddress(w, c, h, bs, i); } else { SpanLines(w, c, h, bs, i); }
    }
  }

  /** A command is carried out exactly when it is in range: else the program goes on
      behind it, or behind its block, with nothing but ranges consulted. */
  lemma CarriedOut(w: World, prog: seq<Cmd>, pc: nat, s: State)
    requires |s.inMatch| == |prog| && pc < |prog| && JumpsInside(prog) && Ranged(prog[pc]) && Alive(s)
    ensures var c := prog[pc];
            var (b, s1) := InRange(EnvOf(w), c, pc, s);
            && s1.seen == s.seen + [Seen(pc, s.r, b)]
            && (Alive(s1) && !b && !c.op.Open? ==> Step(EnvOf(w), prog, pc, s) == (pc + 1, s1))
            && (Alive(s1) && b && c.op.Apply? ==>
                  Step(EnvOf(w), prog, pc, s) == (pc + 1, s1.(r := DoEdit(w, c.op.e, s1.r))))
  {
  }

  // ------------------------------------------------------- lines of input

  /** No command that reads a line within a cycle, or begins one without reading. */
  ghost predicate LineByLine(prog: seq<Cmd>) {
    forall i :: 0 <= i < |prog| ==>
      !prog[i].op.DeleteFirst? && prog[i].op != Apply(NextLine) && prog[i].op != Apply(AddLine)
  }

  /** Consult number i of every command was on line i + 1. */
  ghost predicate OnLines(prog: seq<Cmd>, seen: seq<Seen>, k: nat) {
    var h := Hist(seen, k);
    forall i {:trigger h[i]} :: 0 <= i < |h| ==> h[i].lineno == i + 1
  }

  /** All commands from p on have been consulted on as many lines as were read before
      this one. */
  ghost predicate Ready(prog: seq<Cmd>, s: State, p: int) {
    forall j {:trigger Hist(s.seen, j)} :: p <= j < |prog| && j >= 0 && Ranged(prog[j]) ==>
      |Hist(s.seen, j)| + 1 == s.r.lineno
  }

  lemma InRangeOnLines(w: World, prog: seq<Cmd>, p: nat, s: State, k: nat)
    requires |s.inMatch| == |prog| && p < |prog| && k < |prog| && Alive(s)
    requires Ready(prog, s, p) && OnLines(prog, s.seen, k)
    ensures var t := InRange(EnvOf(w), prog[p], p, s).1;
            OnLines(prog, t.seen, k) && Ready(prog, t, p + 1) && t.r.lineno == s.r.lineno
  {
    var (b, bit, r) := Consult(w, prog[p], s.inMatch[p], s.r);
    ConsultStatus(w, prog[p], s.inMatch[p], s.r);
    var x := Seen(p, s.r, b);
    var t := InRange(EnvOf(w), prog[p], p, s).1;
    HistSnoc(s.seen, x, k);
    forall j | p + 1 <= j < |prog| && Ranged(prog[j]) ensures |Hist(t.seen, j)| + 1 == t.r.lineno {
      HistSnoc(s.seen, x, j);
      assert |Hist(s.seen, j)| + 1 == s.r.lineno;
    }
    if p == k && Ranged(prog[p]) { assert |Hist(s.seen, p)| + 1 == s.r.lineno; }
  }

  lemma {:induction false} UpdateOnLines(w: World, prog: seq<Cmd>, beg: nat, end: int, s: State, k: nat)
    requires |s.inMatch| == |prog| && end <= |prog| && k < |prog| && Ready(prog, s, beg) && OnLines(prog, s.seen, k)
    ensures var t := UpdateRanges(EnvOf(w), prog, beg, end, s); OnLines(prog, t.seen, k) && t.r.lineno == s.r.lineno
    decreases end - beg
  {
    if beg < end && Alive(s) {
      InRangeOnLines(w, prog, beg, s, k);
      UpdateOnLines(w, prog, beg + 1, end, InRange(EnvOf(w), prog[beg], beg, s).1, k);
    }
  }

  lemma NewNextOnLines(w: World, prog: seq<Cmd>, pc: nat, s: State, k: nat)
    requires |s.inMatch| == |prog| && pc < |prog| && k < |prog| && Ready(prog, s, pc + 1) && OnLines(prog, s.seen, k)
    ensures var t := NewNext(EnvOf(w), prog, pc, s);
            OnLines(prog, t.seen, k) && (Alive(t) ==> t.r.lineno == s.r.lineno + 1)
  {
    var s1 := s.(r := s.r.(patt := ""));
    ReadyAlso(prog, s, s1, pc + 1);
    UpdateOnLines(w, prog, pc + 1, |prog|, s1, k);
    NewNextLast(EnvOf(w), prog, pc, s);
  }

  lemma ReadyAlso(prog: seq<Cmd>, s: State, t: State, p: int)
    requires Ready(prog, s, p) && t.seen == s.seen && t.r.lineno == s.r.lineno
    ensures Ready(prog, t, p)
  {
  }

  lemma AfterOnLines(w: World, prog: seq<Cmd>, pc: nat, b: bool, s: State, k: nat)
    requires |s.inMatch| == |prog| && pc < |prog| && k < |prog|
    requires JumpsInside(prog) && LineByLine(prog) && Ranged(prog[pc])
    requires Alive(s) && Ready(prog, s, pc + 1) && OnLines(prog, s.seen, k)
    ensures var (p, t) := AfterRange(EnvOf(w), prog, pc, b, s);
            OnLines(prog, t.seen, k) && (Alive(t) ==> t.r.lineno == s.r.lineno + if p == START then 1 else 0)
  {
    assert JumpOk(prog, pc);
    match prog[pc].op
    case Open(offset) => UpdateOnLines(w, prog, pc + 1, offset, s, k);
    case Delete => NewNextOnLines(w, prog, pc, s, k);
    case Change(text) =>
      var s2 := if !s.inMatch[pc] then s.(r := s.r.(out := s.r.out + [text])) else s;
      ReadyAlso(prog, s, s2, pc + 1);
      NewNextOnLines(w, prog, pc, s2, k);
    case Branch(jump) => UpdateOnLines(w, prog, pc + 1, if jump > pc then jump else |prog|, s, k);
    case Test(jump) => UpdateOnLines(w, prog, pc + 1, if jump > pc then jump else |prog|, s, k);
    case Apply(e) => EditLine(w, e, s.r);
    case _ =>
  }

  lemma EditLine(w: World, e: Edit, r: Regs)
    requires e != NextLine && e != AddLine
    ensures DoEdit(w, e, r).lineno == r.lineno
  {
  }

  lemma StepOnLines(w: World, prog: seq<Cmd>, pc: nat, s: State, k: nat)
    requires |s.inMatch| == |prog| && pc < |prog| && k < |prog| && JumpsInside(prog) && LineByLine(prog)
    requires Alive(s) && Ready(prog, s, pc) && OnLines(prog, s.seen, k)
    ensures var (p, t) := Step(EnvOf(w), prog, pc, s);
            OnLines(prog, t.seen, k) && (Alive(t) ==> t.r.lineno == s.r.lineno + if p == 0 then 1 else 0)
  {
    assert Ready(prog, s, pc + 1);
    if prog[pc].op.Last? {
      var s1 := s.(r := DoWrites(AutoPrint(w.quiet, s.r)));
      ReadyAlso(prog, s, s1, pc + 1);
      NewNextOnLines(w, prog, pc, s1, k);
    } else if Ranged(prog[pc]) {
      InRangeOnLines(w, prog, pc, s, k);
      var (b, s1) := InRange(EnvOf(w), prog[pc], pc, s);
      if Alive(s1) { AfterOnLines(w, prog, pc, b, s1, k); }
    }
  }

  /** What has been recorded says who is ready. */
  lemma RecordedReady(prog: seq<Cmd>, cycles: nat, p: int, s: State)
    requires Recorded(prog, [], cycles, p, s) && s.r.lineno == cycles + 1
    ensures Ready(prog, s, p)
  {
    forall j | p <= j < |prog| && j >= 0 && Ranged(prog[j]) ensures |Hist(s.seen, j)| + 1 == s.r.lineno {
      HistCount(s.seen, j);
      RecordedCount(prog, [], cycles, p, s, j);
    }
  }

  lemma {:induction false} RunOnLines(w: World, prog: seq<Cmd>, ps: seq<int>, ss: seq<State>, n: nat, k: nat)
    requires TidyProgram(prog) && LineByLine(prog) && IsRun(EnvOf(w), prog, ps, ss) && n < |ps| && k < |prog|
    requires Fresh(ss[0]) && ss[0].r.lineno == 1 && ss[n].r.status != Fatal
    ensures OnLines(prog, ss[n].seen, k) && (Alive(ss[n]) ==> ss[n].r.lineno == Returns(ps, n) + 1)
    decreases n
  {
    if n > 0 {
      assert Turn(EnvOf(w), prog, ps[n - 1], ss[n - 1], ps[n], ss[n]);
      RunOnLines(w, prog, ps, ss, n - 1, k);
      RunOnTrack(EnvOf(w), prog, ps, ss, n - 1);
      assert ss[0].Log() == [];
      RecordedReady(prog, Returns(ps, n - 1), ps[n - 1], ss[n - 1]);
      StepOnLines(w, prog, ps[n - 1], ss[n - 1], k);
    }
  }

  /** In a script that reads a line at the end of each cycle only, with branches in
      step, every command is consulted on every line once, and a command with the
      addresses `m,n` is in range exactly on the lines from m to n, or on m alone if
      n is not after it; with `!`, on all others. */
  lemma LinesInRange(w: World, prog: seq<Cmd>, ps: seq<int>, ss: seq<State>, n: nat, k: nat, a: int, b: int)
    requires TidyProgram(prog) && LineByLine(prog) && IsRun(EnvOf(w), prog, ps, ss) && n < |ps| && k < |prog|
    requires Fresh(ss[0]) && ss[0].r.lineno == 1 && ss[n].r.status != Fatal
    requires Ranged(prog[k]) && prog[k].range == Range(LineNo(a), LineNo(b))
    ensures var h := Hist(ss[n].seen, k);
            && |h| == Returns(ps, n) + (if k < ps[n] then 1 else 0)
            && forall i :: 0 <= i < |h| ==>
                 && h[i].lineno == i + 1
                 && Answers(ss[n].seen, k)[i] == (Between(a, b, i + 1) != prog[k].negate)
  {
    var h := Hist(ss[n].seen, k);
    RunTracked(w, prog, ps, ss, n, k);
    RunOnLines(w, prog, ps, ss, n, k);
    RunOnTrack(EnvOf(w), prog, ps, ss, n);
    assert ss[0].Log() == [];
    RecordedCount(prog, [], Returns(ps, n), ps[n], ss[n], k);
    HistCount(ss[n].seen, k);
    forall i | 0 <= i < |h|
      ensures h[i].lineno == i + 1
      ensures Answers(ss[n].seen, k)[i] == (Between(a, b, i + 1) != prog[k].negate)
    {
      NumberedLines(w, prog[k], h, Answers(ss[n].seen, k), a, b, i);
    }
  }

  /** So it is in every script without branches. */
  lemma NestedLines(w: World, p: Script, ps: seq<int>, ss: seq<State>, n: nat, k: nat, a: int, b: int)
    requires ScriptOk(p) && LineByLine(Program(p))
    requires IsRun(EnvOf(w), Program(p), ps, ss) && n < |ps| && k < |Program(p)|
    requires Fresh(ss[0]) && ss[0].r.lineno == 1 && ss[n].r.status != Fatal
    requires Ranged(Program(p)[k]) && Program(p)[k].range == Range(LineNo(a), LineNo(b))
    ensures var h := Hist(ss[n].seen, k);
            && |h| == Returns(ps, n) + (if k < ps[n] then 1 else 0)
            && forall i :: 0 <= i < |h| ==>
                 && h[i].lineno == i + 1
                 && Answers(ss[n].seen, k)[i] == (Between(a, b, i + 1) != Program(p)[k].negate)
  {
    NestedTidy(p);
    LinesInRange(w, Program(p), ps, ss, n, k, a, b);
  }
}

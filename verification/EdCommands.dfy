/** ed's commands on the line buffer, several of them under one `g`, and what `u`
    or an error makes of them. */
module EdCommands {
  import opened Basics
  import opened EdRing
  import opened Ed

  /** A command with its addresses; `Goto` is `g` moving to its next line, or any
      command that only sets the current line.  The text typed after `a`, `i` and
      `c` is a list of lines. */
  datatype Command =
    | Goto(line: int)
    | Append(line: int, lines: seq<string>)
    | Insert(line: int, lines: seq<string>)
    | Delete(from: int, last: int)
    | Change(from: int, last: int, lines: seq<string>)
    | Join(from: int, last: int)

  ghost predicate Typed(lines: seq<string>) {
    forall i :: 0 <= i < |lines| ==> OneLine(lines[i])
  }

  /** Lines typed end in a newline.  `0,1j` reads past the empty text of line 0
      and has no meaning here. */
  ghost predicate Possible(c: Command) {
    match c
    case Append(_, lines) => Typed(lines)
    case Insert(_, lines) => Typed(lines)
    case Change(_, _, lines) => Typed(lines)
    case Join(from, last) => from == 0 ==> last <= 0
    case _ => true
  }

  /** "invalid address" and "incorrect address". */
  predicate Refused(c: Command, lastln: int) {
    match c
    case Goto(line) => !(1 <= line <= lastln)
    case Append(line, _) => !(0 <= line <= lastln)
    case Insert(line, _) => !(0 <= line <= lastln)
    case Delete(from, last) => !(1 <= from <= last <= lastln)
    case Change(from, last, _) => !(1 <= from <= last <= lastln)
    case Join(from, last) => !(0 <= from <= last <= lastln)
  }

  /** The lines addressed, first to last. */
  function Addressed(c: Command): (int, int) {
    match c
    case Goto(line) => (line, line)
    case Append(line, _) => (line, line)
    case Insert(line, _) => (line, line)
    case Delete(from, last) => (from, last)
    case Change(from, last, _) => (from, last)
    case Join(from, last) => (from, last)
  }

  predicate Exists(line: int, lastln: int) { 0 <= line <= lastln }

  /** A command is accepted exactly if some line is addressed and all addressed
      exist, line 0 only where no text of it is needed. */
  lemma AcceptedIff(c: Command, lastln: int)
    ensures var (from, last) := Addressed(c);
            !Refused(c, lastln) <==>
            from <= last && (forall i :: from <= i <= last ==> Exists(i, lastln))
            && (from == 0 ==> c.Append? || c.Insert? || c.Join?)
  {
    var (from, last) := Addressed(c);
    if from <= last && forall i :: from <= i <= last ==> Exists(i, lastln) {
      assert Exists(from, lastln) && Exists(last, lastln);
    }
  }

  /** Whether any link is changed, with the current line cur. */
  predicate Alters(c: Command, cur: int) {
    match c
    case Goto(_) => false
    case Append(_, lines) => lines != []
    case Insert(_, lines) => lines != []
    case Join(from, last) => from != last && cur != 0
    case _ => true
  }

  /** lines in place of texts[from..last]. */
  function Replaced(texts: seq<string>, from: int, last: int, lines: seq<string>): seq<string>
    requires 0 <= from <= last <= |texts|
  {
    texts[..from] + lines + texts[last..]
  }

  /** The lines after the command. */
  function Edited(texts: seq<string>, cur: int, c: Command): seq<string>
    requires !Refused(c, |texts|) && Possible(c)
  {
    match c
    case Goto(_) => texts
    case Append(line, lines) => Replaced(texts, line, line, lines)
    case Insert(line, lines) => var n := if line == 0 then 0 else line - 1; Replaced(texts, n, n, lines)
    case Delete(from, last) => Replaced(texts, from - 1, last, [])
    case Change(from, last, lines) => Replaced(texts, from - 1, last, lines)
    case Join(from, last) =>
      if !Alters(c, cur) then texts
      else
        var joined := Joined(texts, from, last) + "\n";
        if last < |texts| || from == 1 then Replaced(texts, from - 1, last, [joined])
        else texts[..from - 2] + [joined] + [texts[from - 2]]
  }

  /** The current line after the command: the last line typed, the line after
      those deleted, or the line after a joined one unless that is the last. */
  function Current(texts: seq<string>, cur: int, c: Command): int {
    match c
    case Goto(line) => line
    case Append(line, lines) => line + |lines|
    case Insert(line, lines) => (if line == 0 then 0 else line - 1) + |lines|
    case Delete(from, last) => if last == |texts| then from - 1 else from
    case Change(from, _, lines) => from - 1 + |lines|
    case Join(from, last) => if !Alters(c, cur) then cur else if last == |texts| then from else from + 1
  }

  /** The command was accepted and did this. */
  ghost predicate Done(was: seq<string>, cur: int, c: Command, now: seq<string>, at: int) {
    Possible(c) && !Refused(c, |was|) && now == Edited(was, cur, c) && at == Current(was, cur, c)
  }

  /** The lines and the current line after a list of commands, unless one of them
      is refused. */
  ghost function Outcome(texts: seq<string>, cur: int, cs: seq<Command>): Option<(seq<string>, int)>
    requires forall i :: 0 <= i < |cs| ==> Possible(cs[i])
    decreases |cs|
  {
    if cs == [] then Some((texts, cur))
    else if Refused(cs[0], |texts|) then None
    else Outcome(Edited(texts, cur, cs[0]), Current(texts, cur, cs[0]), cs[1..])
  }

  /** `append`. */
  method AppendLines(b: Buffer, num: int, lines: seq<string>)
    requires b.Linked() && b.Started() && 0 <= num <= b.lastln && Typed(lines)
    modifies b
    ensures b.Linked() && b.Started() && b.start == old(b.start) && b.curln == num + |lines|
    ensures num <= |old(b.texts)| && b.texts == Replaced(old(b.texts), num, num, lines)
    ensures b.newcmd == (old(b.newcmd) && lines == []) && b.lastln == |b.texts|
  {
    b.curln := num;
    var i := 0;
    assert lines[..0] == [];
    SplicedNone(b.texts, num);
    while i < |lines|
      invariant 0 <= i <= |lines| && b.Linked() && b.Started() && b.start == old(b.start) && b.curln == num + i
      invariant num <= |old(b.texts)| && b.texts == old(b.texts)[..num] + lines[..i] + old(b.texts)[num..]
      invariant b.newcmd == (old(b.newcmd) && i == 0)
    {
      AppendLine(b, old(b.texts), num, lines, i);
      i := i + 1;
    }
    assert lines[..i] == lines;
  }

  /** One turn of its loop. */
  method AppendLine(b: Buffer, ghost was: seq<string>, ghost num: nat, lines: seq<string>, i: nat)
    requires b.Linked() && b.Started() && i < |lines| && b.curln == num + i && Typed(lines)
    requires num <= |was| && b.texts == was[..num] + lines[..i] + was[num..]
    modifies b
    ensures b.Linked() && b.Started() && b.start == old(b.start) && b.curln == num + i + 1 && !b.newcmd
    ensures b.texts == was[..num] + lines[..i + 1] + was[num..]
  {
    SplitOne(lines[i]);
    ghost var before := b.texts;
    b.Inject(lines[i], After);
    OneMore(was[..num], lines, i, was[num..], before, b.texts);
  }

  lemma OneMore(a: seq<string>, lines: seq<string>, i: nat, z: seq<string>, before: seq<string>, now: seq<string>)
    requires i < |lines| && before == a + lines[..i] + z
    requires now == before[..|a| + i] + [lines[i]] + before[|a| + i..]
    ensures now == a + lines[..i + 1] + z
  {
    assert before[..|a| + i] == a + lines[..i] && before[|a| + i..] == z;
  }

  /** One command. */
  method Do(b: Buffer, c: Command) returns (ok: bool)
    requires b.Linked() && b.Started() && Possible(c)
    modifies b
    ensures b.Linked() && b.start == old(b.start)
    ensures ok <==> !Refused(c, old(b.lastln))
    ensures !ok ==> SameAs(b.Now(b.curln, b.lastln), b.start)
    ensures ok ==> b.Started() && Done(old(b.texts), old(b.curln), c, b.texts, b.curln) && b.lastln == |b.texts|
    ensures ok ==> b.newcmd == (old(b.newcmd) && !Alters(c, old(b.curln)))
    ensures ok && b.newcmd ==> b.udata == old(b.udata) && b.base == old(b.base)
  {
    ok := !Refused(c, b.lastln);
    if !ok {
      b.Error();
    } else if Alters(c, b.curln) {
      DoAlter(b, c);
    } else {
      match c {
        case Goto(line) => b.curln := line;
        case Append(line, _) => b.curln := line;
        case Insert(line, _) => b.curln := if line == 0 then 0 else line - 1;
        case _ =>
      }
      Unaltered(b.texts, old(b.curln), c);
    }
  }

  method DoAlter(b: Buffer, c: Command)
    requires b.Linked() && b.Started() && Possible(c) && !Refused(c, b.lastln) && Alters(c, b.curln)
    modifies b
    ensures b.Linked() && b.Started() && !b.newcmd && b.start == old(b.start) && b.lastln == |b.texts|
    ensures Done(old(b.texts), old(b.curln), c, b.texts, b.curln)
  {
    match c {
      case Append(line, lines) => AppendLines(b, line, lines);
      case Insert(line, lines) => AppendLines(b, if line == 0 then 0 else line - 1, lines);
      case Delete(from, last) => DeleteLines(b, from, last);
      case Change(from, last, lines) => ChangeLines(b, from, last, lines);
      case Join(from, last) => JoinLines(b, from, last);
    }
  }

  method DeleteLines(b: Buffer, from: int, last: int)
    requires b.Linked() && b.Started() && 1 <= from <= last <= b.lastln
    modifies b
    ensures b.Linked() && b.Started() && !b.newcmd && b.start == old(b.start) && b.lastln == |b.texts|
    ensures Done(old(b.texts), old(b.curln), Delete(from, last), b.texts, b.curln)
  {
    ghost var was := b.texts;
    var ok := b.Delete(from, last);
    DeletedIs(was, from - 1, last);
  }

  method ChangeLines(b: Buffer, from: int, last: int, lines: seq<string>)
    requires b.Linked() && b.Started() && 1 <= from <= last <= b.lastln && Typed(lines)
    modifies b
    ensures b.Linked() && b.Started() && !b.newcmd && b.start == old(b.start) && b.lastln == |b.texts|
    ensures Done(old(b.texts), old(b.curln), Command.Change(from, last, lines), b.texts, b.curln)
  {
    ghost var was := b.texts;
    DeleteLines(b, from, last);
    AppendLines(b, from - 1, lines);
    ChangedIs(was, from - 1, last, lines);
  }

  method JoinLines(b: Buffer, from: int, last: int)
    requires b.Linked() && b.Started() && 1 <= from < last <= b.lastln && b.curln != 0
    modifies b
    ensures b.Linked() && b.Started() && !b.newcmd && b.start == old(b.start) && b.lastln == |b.texts|
    ensures Done(old(b.texts), old(b.curln), Join(from, last), b.texts, b.curln)
  {
    ghost var was, cur := b.texts, b.curln;
    b.Join(from, last);
    JoinedIs(was, cur, from, last, b.texts);
  }

  lemma DeletedIs(was: seq<string>, from: nat, last: nat)
    requires from <= last <= |was|
    ensures was[..from] + was[last..] == Replaced(was, from, last, [])
  {
  }

  lemma ChangedIs(was: seq<string>, from: nat, last: nat, lines: seq<string>)
    requires from <= last <= |was|
    ensures Replaced(Replaced(was, from, last, []), from, from, lines) == Replaced(was, from, last, lines)
  {
    var left := Replaced(was, from, last, []);
    assert left[..from] == was[..from] && left[from..] == was[last..];
  }

  lemma JoinedIs(was: seq<string>, cur: int, from: nat, last: nat, now: seq<string>)
    requires 1 <= from < last <= |was| && cur != 0
    requires var p := if last < |was| || from == 1 then from - 1 else from - 2;
             now == was[..p] + [Joined(was, from, last) + "\n"] + was[p..from - 1] + was[last..]
    ensures now == Edited(was, cur, Join(from, last))
  {
    JoinedParts(was, from, last, Joined(was, from, last) + "\n");
  }

  /** What `j` does to lines of which the words are known. */
  lemma JoinOfWords(words: seq<string>, cur: int, from: int, last: int)
    requires 1 <= from < last <= |words| && cur != 0 && forall i :: 0 <= i < |words| ==> '\n' !in words[i]
    ensures Edited(Lines(words), cur, Join(from, last))
         == Lines(if last < |words| || from == 1
                  then words[..from - 1] + [Concat(words[from - 1..last])] + words[last..]
                  else words[..from - 2] + [Concat(words[from - 1..last]), words[from - 2]])
  {
    JoinedWords(words, from, last);
    var w := Concat(words[from - 1..last]);
    if last < |words| || from == 1 {
      LinesInPlace(words, from - 1, last, w);
    } else {
      LinesBefore(words, from - 2, w);
    }
  }

  /** Line n, counted from 1. */
  function Line(texts: seq<string>, n: int): string
    requires 1 <= n <= |texts|
  {
    texts[n - 1]
  }

  lemma ReplacedAt(texts: seq<string>, from: nat, last: nat, lines: seq<string>, i: nat)
    requires from <= last <= |texts|
    ensures var now := Replaced(texts, from, last, lines);
            && |now| == |texts| - (last - from) + |lines|
            && (i < from ==> now[i] == texts[i])
            && (i < |lines| ==> now[from + i] == lines[i])
            && (i < |texts| - last ==> now[from + |lines| + i] == texts[last + i])
  {
  }

  predicate Types(c: Command) { c.Append? || c.Insert? || c.Change? }

  /** Between which lines the text typed belongs: behind the line addressed by `a`, before
      the one addressed by `i`, and for `c` instead of the lines addressed.  `0i` is
      `1i`. */
  function Neighbours(c: Command): (int, int)
    requires Types(c)
  {
    match c
    case Append(line, _) => (line, line + 1)
    case Insert(line, _) => if line == 0 then (0, 1) else (line - 1, line)
    case Change(from, last, _) => (from - 1, last + 1)
  }

  lemma TypedReplaces(texts: seq<string>, cur: int, c: Command)
    requires !Refused(c, |texts|) && Possible(c) && Types(c)
    ensures var (before, behind) := Neighbours(c);
            && 0 <= before < behind <= |texts| + 1
            && Edited(texts, cur, c) == Replaced(texts, before, behind - 1, c.lines)
            && Current(texts, cur, c) == before + |c.lines|
  {
  }

  /** There it stands, the last line typed is the current one, and what was beside it is
      beside it still. */
  lemma TypedStand(texts: seq<string>, cur: int, c: Command, i: nat)
    requires !Refused(c, |texts|) && Possible(c) && Types(c) && i < |c.lines|
    ensures var now, at, k := Edited(texts, cur, c), Current(texts, cur, c), |c.lines|;
            var (before, behind) := Neighbours(c);
            && |now| == |texts| + k - (behind - before - 1)
            && k <= at <= |now| && Line(now, at - k + 1 + i) == c.lines[i]
            && (before >= 1 ==> at > k && Line(now, at - k) == Line(texts, before))
            && (behind <= |texts| ==> at < |now| && Line(now, at + 1) == Line(texts, behind))
  {
    var (before, behind) := Neighbours(c);
    TypedReplaces(texts, cur, c);
    ReplacedAt(texts, before, behind - 1, c.lines, i);
    if before > 0 { ReplacedAt(texts, before, behind - 1, c.lines, before - 1); }
    ReplacedAt(texts, before, behind - 1, c.lines, 0);
  }

  /** The current line after `d` is the one behind the lines deleted, or the last; after
      `j` it is the one behind the line joined, or at the end the joined line if there
      is no other. */
  lemma CurrentStands(texts: seq<string>, cur: int, c: Command)
    requires !Refused(c, |texts|) && Possible(c) && Alters(c, cur) && (c.Delete? || c.Join?)
    ensures var now, at := Edited(texts, cur, c), Current(texts, cur, c);
            && (c.last < |texts| ==> 1 <= at <= |now| && Line(now, at) == Line(texts, c.last + 1))
            && (c.Delete? && c.last == |texts| ==> at == |now|)
            && (c.Join? && c.last == |texts| ==> at == |now|)
            && (c.Join? && c.last == |texts| && c.from > 1 ==> at > 1 && Line(now, at) == Line(texts, c.from - 1))
            && |now| == |texts| - (c.last - c.from) - if c.Delete? then 1 else 0
  {
  }

  lemma LinesInPlace(words: seq<string>, a: nat, b: nat, w: string)
    requires a <= b <= |words|
    ensures Replaced(Lines(words), a, b, [w + "\n"]) == Lines(words[..a] + [w] + words[b..])
  {
  }

  lemma LinesBefore(words: seq<string>, a: nat, w: string)
    requires a < |words|
    ensures Lines(words)[..a] + [w + "\n"] + [Lines(words)[a]] == Lines(words[..a] + [w, words[a]])
  {
  }

  lemma JoinedParts(was: seq<string>, from: nat, last: nat, s: string)
    requires 1 <= from <= last <= |was|
    ensures was[..from - 1] + [s] + was[from - 1..from - 1] + was[last..] == Replaced(was, from - 1, last, [s])
    ensures last == |was| && from > 1 ==>
              was[..from - 2] + [s] + was[from - 2..from - 1] + was[last..] == was[..from - 2] + [s] + [was[from - 2]]
  {
  }

  /** Several commands, as in the list of a `g`: the first that is refused ends
      them all.  Tells whether anything was changed. */
  method DoAll(b: Buffer, cs: seq<Command>) returns (ok: bool, changed: bool)
    requires b.Linked() && b.Started() && b.newcmd && forall i :: 0 <= i < |cs| ==> Possible(cs[i])
    modifies b
    ensures b.Linked() && b.start == old(b.start)
    ensures ok <==> Outcome(old(b.texts), old(b.curln), cs).Some?
    ensures !ok ==> SameAs(b.Now(b.curln, b.lastln), b.start)
    ensures ok ==> b.Started() && changed == !b.newcmd
    ensures ok ==> Outcome(old(b.texts), old(b.curln), cs) == Some((b.texts, b.curln))
    ensures ok && !changed ==> b.texts == old(b.texts) && b.udata == old(b.udata) && b.base == old(b.base)
  {
    ok, changed := true, false;
    var i := 0;
    assert cs[0..] == cs;
    while i < |cs|
      invariant 0 <= i <= |cs| && b.Linked() && b.Started() && b.start == old(b.start) && changed == !b.newcmd
      invariant Outcome(old(b.texts), old(b.curln), cs) == Outcome(b.texts, b.curln, cs[i..])
      invariant !changed ==> b.texts == old(b.texts) && b.udata == old(b.udata) && b.base == old(b.base)
    {
      ok, changed := DoNext(b, cs, i, changed);
      if !ok { return; }
      i := i + 1;
    }
  }

  /** One turn of it. */
  method DoNext(b: Buffer, cs: seq<Command>, i: nat, changed: bool) returns (ok: bool, changed': bool)
    requires b.Linked() && b.Started() && changed == !b.newcmd && i < |cs| &&
             forall i :: 0 <= i < |cs| ==> Possible(cs[i])
    modifies b
    ensures b.Linked() && b.start == old(b.start)
    ensures !ok ==> SameAs(b.Now(b.curln, b.lastln), b.start) && Outcome(old(b.texts), old(b.curln), cs[i..]) == None
    ensures ok ==> b.Started() && changed' == !b.newcmd && (changed ==> changed')
    ensures ok ==> Outcome(old(b.texts), old(b.curln), cs[i..]) == Outcome(b.texts, b.curln, cs[i + 1..])
    ensures ok && !changed' ==> b.texts == old(b.texts) && b.udata == old(b.udata) && b.base == old(b.base)
  {
    assert cs[i..][1..] == cs[i + 1..];
    changed' := changed || Alters(cs[i], b.curln);
    ghost var was, cur := b.texts, b.curln;
    ok := Do(b, cs[i]);
    if ok && !changed' { Unaltered(was, cur, cs[i]); }
  }

  lemma Unaltered(texts: seq<string>, cur: int, c: Command)
    requires !Refused(c, |texts|) && Possible(c) && !Alters(c, cur)
    ensures Edited(texts, cur, c) == texts
  {
  }

  lemma SameAsAfter(a: Saved, b: Saved, c: Saved)
    requires SameAs(a, b) && SameAs(b, c)
    ensures SameAs(a, c)
  {
    assert a.zero[..|c.zero|] == a.zero[..|b.zero|][..|c.zero|];
  }

  /** `u`: what it undoes, or the error. */
  method UndoCommand(b: Buffer) returns (ok: bool)
    requires b.Linked()
    modifies b
    ensures b.Linked() && (ok <==> old(b.udata) != [])
    ensures ok ==> b.udata == [] && SameAs(b.Now(b.curln, b.lastln), old(b.base))
    ensures !ok ==> SameAs(b.Now(b.curln, b.lastln), old(b.Now(b.curln, b.lastln)))
  {
    b.Begin();
    ok := b.udata != [];
    if ok { b.Undo(); } else { b.Error(); }
  }

  /** A command line, which may be a `g` with many commands, and then `u`.  If any
      command was refused, or anything was changed, the buffer is as it was before
      the line, whatever was done: links, lines, `curln` and `lastln`.  Otherwise
      `u` undoes the last line before it that changed anything. */
  method LineThenUndo(b: Buffer, cs: seq<Command>) returns (ok: bool, changed: bool)
    requires b.Linked() && forall i :: 0 <= i < |cs| ==> Possible(cs[i])
    modifies b
    ensures b.Linked()
    ensures ok <==> Outcome(old(b.texts), old(b.curln), cs).Some?
    ensures !ok || changed ==> SameAs(b.Now(b.curln, b.lastln), old(b.Now(b.curln, b.lastln)))
    ensures ok && !changed && old(b.udata) != [] ==> SameAs(b.Now(b.curln, b.lastln), old(b.base))
    ensures ok && !changed && old(b.udata) == [] ==> b.texts == old(b.texts)
  {
    b.Begin();
    ghost var start := b.start;
    ok, changed := DoAll(b, cs);
    if ok {
      ghost var base := b.base;
      var undone := UndoCommand(b);
      if changed { SameAsAfter(b.Now(b.curln, b.lastln), base, start); }
    }
  }
}

/** The values behind ed's line buffer: the ring of links, the undo log and the
    text kept in the scratch file. */
module EdRing {

  /** A `struct hline`: where the text starts in the scratch file, and the two
      links, which are indices into the same array. */
  datatype Line = Line(seek: int, next: int, prev: int)

  /** A `struct link` of the undo vector: two links and what they pointed to. */
  datatype Link = Link(from1: int, to1: int, from2: int, to2: int)

  // ---------------------------------------------------------------- rings

  function Succ(i: int, n: int): int { if i + 1 == n then 0 else i + 1 }

  function Pred(i: int, n: int): int { if i == 0 then n - 1 else i - 1 }

  ghost predicate Distinct(r: seq<int>) {
    forall i, j :: 0 <= i < j < |r| ==> r[i] != r[j]
  }

  ghost predicate Within(r: seq<int>, n: int) {
    forall i :: 0 <= i < |r| ==> 0 <= r[i] < n
  }

  ghost predicate Forward(z: seq<Line>, r: seq<int>)
    requires Within(r, |z|)
  {
    forall i :: 0 <= i < |r| ==> z[r[i]].next == r[Succ(i, |r|)]
  }

  ghost predicate Backward(z: seq<Line>, r: seq<int>)
    requires Within(r, |z|)
  {
    forall i :: 0 <= i < |r| ==> z[r[i]].prev == r[Pred(i, |r|)]
  }

  /** r lists the indices met by following next from 0 back to 0, and prev runs
      the same way backwards. */
  ghost predicate Ring(z: seq<Line>, r: seq<int>) {
    |r| >= 1 && r[0] == 0 && Within(r, |z|) && Chained(z, r)
  }

  /** Always true.  `Chained` stays folded where nothing says this of its arguments,
      which keeps the obligations small; `RingIff` unfolds it. */
  ghost predicate Follow(x: nat, z: seq<Line>, r: seq<int>) { true }

  ghost predicate Chained(z: seq<Line>, r: seq<int>)
    requires Within(r, |z|)
  {
    forall x: nat {:trigger Follow(x, z, r)} :: Follow(x, z, r) ==> Distinct(r) && Forward(z, r) && Backward(z, r)
  }

  lemma RingIff(z: seq<Line>, r: seq<int>)
    ensures Ring(z, r) <==>
              |r| >= 1 && r[0] == 0 && Within(r, |z|) && Distinct(r) && Forward(z, r) && Backward(z, r)
  {
    assert Follow(0, z, r);
  }

  /** `zero[from1].next = to1; zero[from2].prev = to2`. */
  function Relinked(z: seq<Line>, to1: int, from1: int, from2: int, to2: int): seq<Line>
    requires 0 <= from1 < |z| && 0 <= from2 < |z|
  {
    var y := z[from1 := z[from1].(next := to1)];
    y[from2 := y[from2].(prev := to2)]
  }

  /** Splicing the fresh index k in after position c. */
  lemma RingInsert(z: seq<Line>, r: seq<int>, c: nat, k: int)
    requires Ring(z, r) && c < |r| && 0 <= k < |z| && k !in r
    ensures var b, e := r[c], r[Succ(c, |r|)];
            Ring(Relinked(Relinked(z, k, b, k, b), e, k, e, k), r[..c + 1] + [k] + r[c + 1..])
  {
    RingIff(z, r);
    var b, e := r[c], r[Succ(c, |r|)];
    var y := Relinked(Relinked(z, k, b, k, b), e, k, e, k);
    var q := r[..c + 1] + [k] + r[c + 1..];
    InsertLinks(z, k, b, e);
    InsertDistinct(r, c, k);
    InsertForward(z, y, r, q, c, k);
    InsertBackward(z, y, r, q, c, k);
  }

  lemma InsertLinks(z: seq<Line>, k: int, b: int, e: int)
    requires 0 <= k < |z| && 0 <= b < |z| && 0 <= e < |z| && k != b && k != e
    ensures var y := Relinked(Relinked(z, k, b, k, b), e, k, e, k);
            && |y| == |z|
            && (forall x {:trigger y[x]} :: 0 <= x < |z| ==>
                y[x].next == if x == k then e else if x == b then k else z[x].next)
            && (forall x {:trigger y[x]} :: 0 <= x < |z| ==>
                y[x].prev == if x == e then k else if x == k then b else z[x].prev)
  {
  }

  lemma InsertDistinct(r: seq<int>, c: nat, k: int)
    requires Distinct(r) && c < |r| && k !in r
    ensures var q := r[..c + 1] + [k] + r[c + 1..];
            && Distinct(q)
            && (forall i {:trigger q[i]} :: 0 <= i < |q| ==>
                q[i] == if i <= c then r[i] else if i == c + 1 then k else r[i - 1])
  {
  }

  lemma InsertForward(z: seq<Line>, y: seq<Line>, r: seq<int>, q: seq<int>, c: nat, k: int)
    requires |y| == |z| && Distinct(r) && Within(r, |z|) && Forward(z, r) && c < |r| && 0 <= k < |z| && k !in r
    requires |q| == |r| + 1 &&
             forall i {:trigger q[i]} :: 0 <= i < |q| ==>
               q[i] == if i <= c then r[i] else if i == c + 1 then k else r[i - 1]
    requires forall x {:trigger y[x]} :: 0 <= x < |z| ==>
               y[x].next == if x == k then r[Succ(c, |r|)] else if x == r[c] then k else z[x].next
    ensures Within(q, |y|) && Forward(y, q)
  {
    forall i | 0 <= i < |q| ensures y[q[i]].next == q[Succ(i, |q|)] {
      if i < c { assert q[i] == r[i] && r[i] != r[c]; }
      else if i > c + 1 { assert q[i] == r[i - 1] && r[c] != r[i - 1]; }
    }
  }

  lemma InsertBackward(z: seq<Line>, y: seq<Line>, r: seq<int>, q: seq<int>, c: nat, k: int)
    requires |y| == |z| && Distinct(r) && Within(r, |z|) && Backward(z, r) && c < |r| && 0 <= k < |z| && k !in r
    requires |q| == |r| + 1 &&
             forall i {:trigger q[i]} :: 0 <= i < |q| ==>
               q[i] == if i <= c then r[i] else if i == c + 1 then k else r[i - 1]
    requires forall x {:trigger y[x]} :: 0 <= x < |z| ==>
               y[x].prev == if x == r[Succ(c, |r|)] then k else if x == k then r[c] else z[x].prev
    ensures Within(q, |y|) && Backward(y, q)
  {
    var s := Succ(c, |r|);
    forall i | 0 <= i < |q| ensures y[q[i]].prev == q[Pred(i, |q|)] {
      if i <= c { assert q[i] == r[i] && (i != s ==> r[i] != r[s]); }
      else if i > c + 1 { assert q[i] == r[i - 1] && (i - 1 != s ==> r[i - 1] != r[s]); }
    }
  }

  /** Unlinking the positions from..to. */
  lemma RingDelete(z: seq<Line>, r: seq<int>, from: nat, to: nat)
    requires Ring(z, r) && 1 <= from <= to < |r|
    ensures var b, e := r[from - 1], r[Succ(to, |r|)];
            Ring(Relinked(z, e, b, e, b), r[..from] + r[to + 1..])
  {
    RingIff(z, r);
    var b, e := r[from - 1], r[Succ(to, |r|)];
    var y := Relinked(z, e, b, e, b);
    var q := r[..from] + r[to + 1..];
    DeleteParts(z, r, from, to, b, e);
    DeleteForward(z, y, r, q, from, to);
    DeleteBackward(z, y, r, q, from, to);
    DeleteDistinct(r, q, from, to);
  }

  lemma DeleteParts(z: seq<Line>, r: seq<int>, from: nat, to: nat, b: int, e: int)
    requires 1 <= from <= to < |r| && 0 <= b < |z| && 0 <= e < |z|
    ensures var y, q := Relinked(z, e, b, e, b), r[..from] + r[to + 1..];
            && |y| == |z| && |q| == |r| - (to + 1 - from)
            && (forall i {:trigger q[i]} :: 0 <= i < |q| ==> q[i] == if i < from then r[i] else r[i + to + 1 - from])
            && (forall x {:trigger y[x]} :: 0 <= x < |z| ==> y[x].next == if x == b then e else z[x].next)
            && (forall x {:trigger y[x]} :: 0 <= x < |z| ==> y[x].prev == if x == e then b else z[x].prev)
  {
  }

  lemma DeleteDistinct(r: seq<int>, q: seq<int>, from: nat, to: nat)
    requires Distinct(r) && 1 <= from <= to < |r| && |q| == |r| - (to + 1 - from)
    requires forall i {:trigger q[i]} :: 0 <= i < |q| ==> q[i] == if i < from then r[i] else r[i + to + 1 - from]
    ensures Distinct(q)
  {
  }

  lemma DeleteForward(z: seq<Line>, y: seq<Line>, r: seq<int>, q: seq<int>, from: nat, to: nat)
    requires |y| == |z| && Distinct(r) && Within(r, |z|) && Forward(z, r) && 1 <= from <= to < |r|
    requires |q| == |r| - (to + 1 - from) &&
             forall i {:trigger q[i]} :: 0 <= i < |q| ==> q[i] == if i < from then r[i] else r[i + to + 1 - from]
    requires forall x {:trigger y[x]} :: 0 <= x < |z| ==>
               y[x].next == if x == r[from - 1] then r[Succ(to, |r|)] else z[x].next
    ensures Within(q, |y|) && Forward(y, q)
  {
    forall i | 0 <= i < |q| ensures y[q[i]].next == q[Succ(i, |q|)] {
      if i < from - 1 { assert q[i] == r[i] && r[i] != r[from - 1]; }
      else if i >= from { assert q[i] == r[i + to + 1 - from] && r[from - 1] != r[i + to + 1 - from]; }
    }
  }

  lemma DeleteBackward(z: seq<Line>, y: seq<Line>, r: seq<int>, q: seq<int>, from: nat, to: nat)
    requires |y| == |z| && Distinct(r) && Within(r, |z|) && Backward(z, r) && 1 <= from <= to < |r|
    requires |q| == |r| - (to + 1 - from) &&
             forall i {:trigger q[i]} :: 0 <= i < |q| ==> q[i] == if i < from then r[i] else r[i + to + 1 - from]
    requires forall x {:trigger y[x]} :: 0 <= x < |z| ==>
               y[x].prev == if x == r[Succ(to, |r|)] then r[from - 1] else z[x].prev
    ensures Within(q, |y|) && Backward(y, q)
  {
    forall i | 0 <= i < |q| ensures y[q[i]].prev == q[Pred(i, |q|)] {
      var j, s := if i < from then i else i + to + 1 - from, Succ(to, |r|);
      DeletePred(r, q, from, to, i);
      assert q[i] == r[j] && (j != s ==> r[j] != r[s]);
    }
  }

  lemma DeletePred(r: seq<int>, q: seq<int>, from: nat, to: nat, i: nat)
    requires 1 <= from <= to < |r| && |q| == |r| - (to + 1 - from) && i < |q|
    requires forall i {:trigger q[i]} :: 0 <= i < |q| ==> q[i] == if i < from then r[i] else r[i + to + 1 - from]
    ensures var j := if i < from then i else i + to + 1 - from;
            q[Pred(i, |q|)] == if j == Succ(to, |r|) then r[from - 1] else r[Pred(j, |r|)]
  {
  }

  lemma RingExtend(z: seq<Line>, r: seq<int>, x: Line)
    requires Ring(z, r)
    ensures Ring(z + [x], r) && |z| !in r
  {
    RingIff(z, r);
  }

  // ------------------------------------------------------------- undo log

  ghost predicate LogOk(z: seq<Line>, log: seq<Link>) {
    forall i :: 0 <= i < |log| ==> 0 <= log[i].from1 < |z| && 0 <= log[i].from2 < |z|
  }

  /** Undoing a log: the last entry first. */
  function Undone(z: seq<Line>, log: seq<Link>): (y: seq<Line>)
    requires LogOk(z, log)
    ensures |y| == |z|
    decreases |log|
  {
    if log == [] then z
    else
      var l := log[|log| - 1];
      Undone(Relinked(z, l.to1, l.from1, l.from2, l.to2), log[..|log| - 1])
  }

  /** The entry `newundo` writes before the links are changed. */
  function Entry(z: seq<Line>, from1: int, from2: int): Link
    requires 0 <= from1 < |z| && 0 <= from2 < |z|
  {
    Link(from1, z[from1].next, from2, z[from2].prev)
  }

  /** One relink and its log entry cancel out. */
  lemma UndoneRelinked(z: seq<Line>, log: seq<Link>, to1: int, from1: int, from2: int, to2: int)
    requires LogOk(z, log) && 0 <= from1 < |z| && 0 <= from2 < |z|
    ensures var y := Relinked(z, to1, from1, from2, to2);
            LogOk(y, log + [Entry(z, from1, from2)]) && Undone(y, log + [Entry(z, from1, from2)]) == Undone(z, log)
  {
    var y := Relinked(z, to1, from1, from2, to2);
    var e := Entry(z, from1, from2);
    var more := log + [e];
    assert more[..|more| - 1] == log && more[|more| - 1] == e;
    assert Relinked(y, e.to1, e.from1, e.from2, e.to2) == z;
  }

  /** A new line at the end of the array is left alone by undoing. */
  lemma {:induction false} UndoneExtended(z: seq<Line>, log: seq<Link>, x: Line)
    requires LogOk(z, log)
    ensures LogOk(z + [x], log) && Undone(z + [x], log) == Undone(z, log) + [x]
    decreases |log|
  {
    if log != [] {
      var l := log[|log| - 1];
      var y := Relinked(z, l.to1, l.from1, l.from2, l.to2);
      assert Relinked(z + [x], l.to1, l.from1, l.from2, l.to2) == y + [x];
      UndoneExtended(y, log[..|log| - 1], x);
    }
  }

  /** Undoing moves links only. */
  lemma {:induction false} UndoneKeepsSeek(z: seq<Line>, log: seq<Link>)
    requires LogOk(z, log)
    ensures forall i :: 0 <= i < |z| ==> Undone(z, log)[i].seek == z[i].seek
    decreases |log|
  {
    if log != [] {
      var l := log[|log| - 1];
      UndoneKeepsSeek(Relinked(z, l.to1, l.from1, l.from2, l.to2), log[..|log| - 1]);
    }
  }

  // ----------------------------------------------------------------- text

  /** A line starting at off is complete: its newline is in the file. */
  predicate Terminated(file: string, off: int)
    decreases |file| - off
  {
    0 <= off < |file| && (file[off] == '\n' || Terminated(file, off + 1))
  }

  /** The text of the line that starts at off, newline included. */
  function LineAt(file: string, off: int): string
    requires Terminated(file, off)
    decreases |file| - off
  {
    if file[off] == '\n' then "\n" else [file[off]] + LineAt(file, off + 1)
  }

  /** The scratch file only grows, so lines written stay what they are. */
  lemma {:induction false} LineAtGrows(file: string, more: string, off: int)
    requires Terminated(file, off)
    ensures Terminated(file + more, off) && LineAt(file + more, off) == LineAt(file, off)
    decreases |file| - off
  {
    if file[off] != '\n' { LineAtGrows(file, more, off + 1); }
  }

  /** The length of the first line of a text, newline included. */
  function FirstLine(s: string): (n: nat)
    requires s != [] && s[|s| - 1] == '\n'
    ensures 1 <= n <= |s| && s[n - 1] == '\n' && '\n' !in s[..n - 1]
  {
    if s[0] == '\n' then 1
    else
      assert s[1..][|s| - 2] == '\n';
      1 + FirstLine(s[1..])
  }

  /** Every line of a text that ends in a newline. */
  function SplitLines(s: string): seq<string>
    requires s == [] || s[|s| - 1] == '\n'
    decreases |s|
  {
    if s == [] then [] else [s[..FirstLine(s)]] + SplitLines(s[FirstLine(s)..])
  }

  /** A text without inner newline, written at the end of the file, is the line
      that starts there. */
  lemma {:induction false} LineWritten(file: string, line: string)
    requires line != [] && line[|line| - 1] == '\n' && '\n' !in line[..|line| - 1]
    ensures Terminated(file + line, |file|) && LineAt(file + line, |file|) == line
    decreases |line|
  {
    if |line| == 1 {
      assert line == "\n";
    } else {
      assert line[0] == line[..|line| - 1][0];
      var rest := line[1..];
      assert forall i :: 0 <= i < |rest| - 1 ==> rest[i] == line[..|line| - 1][i + 1];
      assert file + line == (file + [line[0]]) + rest;
      LineWritten(file + [line[0]], rest);
      assert line == [line[0]] + rest;
    }
  }

  /** Nothing but k is left of a ring when k is linked between 0 and 0. */
  lemma RingRestart(z: seq<Line>, k: int)
    requires 0 < k < |z|
    ensures Ring(Relinked(Relinked(z, k, 0, k, 0), 0, k, 0, k), [0, k])
  {
  }

  /** A whole series of relinks, each given as (to1, from1, from2, to2), and the
      log it leaves. */
  datatype Change = Change(to1: int, from1: int, from2: int, to2: int)

  ghost predicate ChangesOk(z: seq<Line>, cs: seq<Change>) {
    forall i :: 0 <= i < |cs| ==> 0 <= cs[i].from1 < |z| && 0 <= cs[i].from2 < |z|
  }

  function AfterChanges(z: seq<Line>, cs: seq<Change>): (y: seq<Line>)
    requires ChangesOk(z, cs)
    ensures |y| == |z|
    decreases |cs|
  {
    if cs == [] then z
    else
      var y := AfterChanges(z, cs[..|cs| - 1]);
      var c := cs[|cs| - 1];
      Relinked(y, c.to1, c.from1, c.from2, c.to2)
  }

  function LogOf(z: seq<Line>, cs: seq<Change>): (log: seq<Link>)
    requires ChangesOk(z, cs)
    ensures |log| == |cs|
    decreases |cs|
  {
    if cs == [] then []
    else
      var y := AfterChanges(z, cs[..|cs| - 1]);
      LogOf(z, cs[..|cs| - 1]) + [Entry(y, cs[|cs| - 1].from1, cs[|cs| - 1].from2)]
  }

  /** Undoing takes back any series of relinks, even one that leaves no ring in
      between and changes the same link many times. */
  lemma {:induction false} UndoneChanges(z: seq<Line>, cs: seq<Change>)
    requires ChangesOk(z, cs)
    ensures LogOk(AfterChanges(z, cs), LogOf(z, cs)) && Undone(AfterChanges(z, cs), LogOf(z, cs)) == z
    decreases |cs|
  {
    if cs != [] {
      var most, c := cs[..|cs| - 1], cs[|cs| - 1];
      UndoneChanges(z, most);
      UndoneRelinked(AfterChanges(z, most), LogOf(z, most), c.to1, c.from1, c.from2, c.to2);
    }
  }

  /** The lines of a list joined into one: `join` of the text parts. */
  function Joined(lines: seq<string>, from: int, last: int): string
    requires 1 <= from && last <= |lines|
    decreases last - from
  {
    if last < from then "" else Joined(lines, from, last - 1) + Body(lines[last - 1])
  }

  /** A text without its newlines. */
  function Body(line: string): string {
    if line == "" then "" else (if line[0] == '\n' then "" else [line[0]]) + Body(line[1..])
  }

  lemma {:induction false} BodyPlain(line: string)
    ensures '\n' !in Body(line)
    decreases |line|
  {
    if line != "" { BodyPlain(line[1..]); }
  }

  lemma {:induction false} BodyOf(word: string)
    requires '\n' !in word
    ensures Body(word + "\n") == word
    decreases |word|
  {
    if word == "" {
      assert "" + "\n" == "\n" && Body("\n"[1..]) == "";
    } else {
      assert (word + "\n")[1..] == word[1..] + "\n";
      BodyOf(word[1..]);
    }
  }

  /** Lines with these words. */
  function Lines(words: seq<string>): (lines: seq<string>)
    ensures |lines| == |words| && forall i :: 0 <= i < |words| ==> lines[i] == words[i] + "\n"
  {
    seq(|words|, i requires 0 <= i < |words| => words[i] + "\n")
  }

  function Concat(words: seq<string>): string {
    if words == [] then "" else Concat(words[..|words| - 1]) + words[|words| - 1]
  }

  /** Joining lines concatenates their words. */
  lemma {:induction false} JoinedWords(words: seq<string>, from: int, last: int)
    requires 1 <= from <= last + 1 && last <= |words| && forall i :: 0 <= i < |words| ==> '\n' !in words[i]
    ensures Joined(Lines(words), from, last) == Concat(words[from - 1..last])
    decreases last - from
  {
    if from <= last {
      JoinedWords(words, from, last - 1);
      BodyOf(words[last - 1]);
      var part := words[from - 1..last];
      assert part[..|part| - 1] == words[from - 1..last - 1] && part[|part| - 1] == words[last - 1];
    }
  }

  /** Every buffer's texts are such lines. */
  lemma TextsAreWords(lines: seq<string>) returns (words: seq<string>)
    requires forall i :: 0 <= i < |lines| ==> OneLine(lines[i])
    ensures Lines(words) == lines && forall i :: 0 <= i < |words| ==> '\n' !in words[i]
  {
    words := seq(|lines|, i requires 0 <= i < |lines| => lines[i][..|lines[i]| - 1]);
    forall i | 0 <= i < |words| ensures Lines(words)[i] == lines[i] && '\n' !in words[i] {
      assert lines[i] == lines[i][..|lines[i]| - 1] + [lines[i][|lines[i]| - 1]];
    }
  }

  ghost predicate OneLine(t: string) {
    t != [] && t[|t| - 1] == '\n' && forall i :: 0 <= i < |t| - 1 ==> t[i] != '\n'
  }

  lemma {:induction false} LineAtIsOneLine(file: string, off: int)
    requires Terminated(file, off)
    ensures OneLine(LineAt(file, off))
    decreases |file| - off
  {
    if file[off] != '\n' { LineAtIsOneLine(file, off + 1); }
  }

  lemma {:induction false} JoinedIsPlain(lines: seq<string>, from: int, last: int)
    requires 1 <= from && last <= |lines| && forall i :: 0 <= i < |lines| ==> OneLine(lines[i])
    ensures OneLine(Joined(lines, from, last) + "\n")
    decreases last - from
  {
    if from <= last {
      JoinedIsPlain(lines, from, last - 1);
      var most := Joined(lines, from, last - 1);
      BodyPlain(lines[last - 1]);
      assert forall i :: 0 <= i < |most| ==> (most + "\n")[i] == most[i];
    }
  }

  lemma {:induction false} FirstLineIs(s: string, n: nat)
    requires 1 <= n <= |s| && s[n - 1] == '\n' && s[|s| - 1] == '\n' && forall i :: 0 <= i < n - 1 ==> s[i] != '\n'
    ensures FirstLine(s) == n
    decreases n
  {
    if n > 1 { FirstLineIs(s[1..], n - 1); }
  }

  lemma SplitOne(s: string)
    requires OneLine(s)
    ensures SplitLines(s) == [s]
  {
    FirstLineIs(s, |s|);
    assert s[..|s|] == s && s[|s|..] == "";
  }
}

/** ed's line buffer: lines appended to a scratch file and linked into a ring,
    every change of a link logged so that one command can be undone, and texts
    read back through a cache of one block. */
module Ed {
  import opened Basics
  import opened EdRing

  const CACHESIZ := 4096

  datatype Where = After | Before

  /** The links, the ring they form, its texts and the line counters at some
      moment. */
  datatype Saved = Saved(zero: seq<Line>, ring: seq<int>, texts: seq<string>, curln: int, lastln: int)

  /** Line 0 has no text; every other line ever made has its text in the file. */
  ghost predicate Stored(zero: seq<Line>, scratch: string) {
    |zero| >= 1 && zero[0].seek == -1 && forall i :: 1 <= i < |zero| ==> Terminated(scratch, zero[i].seek)
  }

  /** The cache is what the file holds from an aligned offset on, or was read
      when the file was shorter. */
  ghost predicate Cached(scratch: string, buf: string, lasto: int) {
    0 <= lasto && lasto + |buf| <= |scratch| && buf == scratch[lasto..lasto + |buf|]
  }

  /** The log leads back to the links of `base`; lines made since then are still
      in the array but nothing points to them. */
  ghost predicate Undoable(zero: seq<Line>, udata: seq<Link>, base: Saved) {
    && |base.zero| <= |zero|
    && LogOk(zero, udata) && Undone(zero, udata)[..|base.zero|] == base.zero
  }

  ghost predicate TextIs(scratch: string, off: int, t: string) {
    Terminated(scratch, off) && LineAt(scratch, off) == t
  }

  /** texts are the texts of the lines, in order. */
  ghost predicate Spelled(zero: seq<Line>, ring: seq<int>, scratch: string, texts: seq<string>)
    requires Within(ring, |zero|)
  {
    |ring| == |texts| + 1 &&
    forall i {:trigger texts[i]} :: 0 <= i < |texts| ==> TextIs(scratch, zero[ring[i + 1]].seek, texts[i])
  }

  ghost predicate Consistent(s: Saved, scratch: string) {
    && Ring(s.zero, s.ring) && s.lastln == |s.ring| - 1 && 0 <= s.curln <= s.lastln
    && Spelled(s.zero, s.ring, scratch, s.texts)
  }

  /** t is s again, except that more lines may have been made since. */
  ghost predicate SameAs(t: Saved, s: Saved) {
    && t.ring == s.ring && t.texts == s.texts && t.curln == s.curln && t.lastln == s.lastln
    && |s.zero| <= |t.zero| && t.zero[..|s.zero|] == s.zero
  }

  lemma SpelledMore(zero: seq<Line>, ring: seq<int>, scratch: string, texts: seq<string>, more: string)
    requires Within(ring, |zero|) && Spelled(zero, ring, scratch, texts)
    ensures Spelled(zero, ring, scratch + more, texts)
  {
    forall i {:trigger texts[i]} | 0 <= i < |texts| ensures TextIs(scratch + more, zero[ring[i + 1]].seek, texts[i]) {
      assert TextIs(scratch, zero[ring[i + 1]].seek, texts[i]);
      LineAtGrows(scratch, more, zero[ring[i + 1]].seek);
    }
  }

  lemma StoredMore(zero: seq<Line>, scratch: string, more: string)
    requires Stored(zero, scratch)
    ensures Stored(zero, scratch + more)
  {
    forall i | 1 <= i < |zero| ensures Terminated(scratch + more, zero[i].seek) {
      LineAtGrows(scratch, more, zero[i].seek);
    }
  }

  lemma UndoableLine(zero: seq<Line>, udata: seq<Link>, base: Saved, x: Line)
    requires Undoable(zero, udata, base)
    ensures Undoable(zero + [x], udata, base)
  {
    UndoneExtended(zero, udata, x);
  }

  lemma UndoableRelink(zero: seq<Line>, udata: seq<Link>, base: Saved, to1: int, from1: int, from2: int, to2: int)
    requires Undoable(zero, udata, base) && 0 <= from1 < |zero| && 0 <= from2 < |zero|
    ensures Undoable(Relinked(zero, to1, from1, from2, to2), udata + [Entry(zero, from1, from2)], base)
  {
    UndoneRelinked(zero, udata, to1, from1, from2, to2);
  }

  /** Always true.  `Logged` stays folded where nothing says this of its arguments,
      which keeps the obligations small; `LoggedIff` unfolds it. */
  ghost predicate Mention(x: nat, zero: seq<Line>, udata: seq<Link>, base: Saved) { true }

  /** The undo vector, its saved counters and the state they lead back to. */
  ghost predicate Logged(zero: seq<Line>, udata: seq<Link>, base: Saved, scratch: string, ucurln: int, ulastln: int) {
    forall x: nat {:trigger Mention(x, zero, udata, base)} :: Mention(x, zero, udata, base) ==>
      Undoable(zero, udata, base) && Consistent(base, scratch) && ucurln == base.curln && ulastln == base.lastln
  }

  lemma LoggedIff(zero: seq<Line>, udata: seq<Link>, base: Saved, scratch: string, ucurln: int, ulastln: int)
    ensures Logged(zero, udata, base, scratch, ucurln, ulastln) <==>
              Undoable(zero, udata, base) && Consistent(base, scratch) && ucurln == base.curln && ulastln == base.lastln
  {
    assert Mention(0, zero, udata, base);
  }

  /** Before the first change of a command nothing differs from its start. */
  ghost predicate Untouched(now: Saved, scratch: string, start: Saved) {
    Consistent(now, scratch) && SameAs(now, start)
  }

  /** `inject` before line 0 of a buffer that has lines. */
  predicate LosesLines(now: Saved, place: Where) {
    place == Before && now.curln == 0 && now.lastln > 0
  }

  /** The position after which `inject` puts its lines. */
  function Position(now: Saved, place: Where): int {
    if place == Before && now.curln > 0 then now.curln - 1 else now.curln
  }

  /** The lines come to stand at their position, the first of them under the
      first new index, and nothing else moves. */
  ghost predicate Injected(was: Saved, now: Saved, place: Where, lines: seq<string>) {
    var c := Position(was, place);
    && 0 <= c <= |was.texts| && now.texts == was.texts[..c] + lines + was.texts[c..]
    && c < |was.ring| && c < |now.ring| && now.ring[..c + 1] == was.ring[..c + 1]
    && (lines != [] ==> |now.ring| > c + 1 && now.ring[c + 1] == |was.zero|)
  }

  class Buffer {
    var zero: seq<Line>
    var curln: int
    var lastln: int
    var ocurln: int
    var olastln: int
    var newcmd: bool
    var modflag: bool
    /** The undo vector, and the counters saved with it. */
    var udata: seq<Link>
    var ucurln: int
    var ulastln: int
    /** The scratch file, and the block of it in memory. */
    var scratch: string
    var buf: string
    var lasto: int
    /** The order of the lines, their texts, and the state the undo vector leads
        back to. */
    ghost var ring: seq<int>
    ghost var texts: seq<string>
    ghost var base: Saved
    /** The state when the current command started. */
    ghost var start: Saved

    /** Holds at all times, also between two relinks of one command. */
    ghost predicate Valid()
      reads this
    {
      Stored(zero, scratch) && Cached(scratch, buf, lasto) && Logged(zero, udata, base, scratch, ucurln, ulastln)
    }

    /** Holds during a command. */
    ghost predicate Started()
      reads this
    {
      if newcmd then Untouched(Now(ocurln, olastln), scratch, start)
      else udata != [] && SameAs(base, start) && ocurln == start.curln
    }

    /** Holds between commands, and after each complete step of one. */
    ghost predicate Linked()
      reads this
    {
      Valid() && Consistent(Now(curln, lastln), scratch)
    }

    ghost function Now(cur: int, last: int): Saved
      reads this
    {
      Saved(zero, ring, texts, cur, last)
    }

    /** `setscratch`: an empty buffer whose only line is line 0. */
    constructor ()
      ensures Linked() && texts == [] && curln == lastln == 0
    {
      zero := [Line(-1, 0, 0)];
      curln, lastln, ocurln, olastln, ucurln, ulastln := 0, 0, 0, 0, 0, 0;
      newcmd, modflag := false, false;
      udata, scratch, buf, lasto := [], "", "", 0;
      ring, texts := [0], [];
      base := Saved([Line(-1, 0, 0)], [0], [], 0, 0);
      start := Saved([Line(-1, 0, 0)], [0], [], 0, 0);
    }

    /** What `edit` does before each command. */
    method Begin()
      requires Linked()
      modifies this`newcmd, this`ocurln, this`olastln, this`start
      ensures Linked() && Started() && newcmd && ocurln == curln && olastln == lastln
      ensures start == Now(curln, lastln)
    {
      newcmd, ocurln, olastln := true, curln, lastln;
      start := Now(curln, lastln);
    }

    // ------------------------------------------------------------ undo log

    /** `newundo`: the first change of a command starts a new log. */
    method NewUndo(from1: int, from2: int) returns (ghost before: seq<Link>)
      requires Valid() && Started() && 0 <= from1 < |zero| && 0 <= from2 < |zero|
      modifies this`udata, this`ucurln, this`ulastln, this`newcmd, this`modflag, this`base
      ensures !newcmd
      ensures before == if old(newcmd) then [] else old(udata)
      ensures old(newcmd) ==> base == Now(ocurln, olastln)
      ensures !old(newcmd) ==> base == old(base)
      ensures udata == before + [Entry(zero, from1, from2)]
      ensures ucurln == base.curln && ulastln == base.lastln
      ensures Undoable(zero, before, base) && Consistent(base, scratch) && SameAs(base, start)
    {
      LoggedIff(zero, udata, base, scratch, ucurln, ulastln);
      if newcmd {
        udata, newcmd, modflag := [], false, false;
        ucurln, ulastln := ocurln, olastln;
        base := Now(ocurln, olastln);
        assert Undone(zero, []) == zero;
      }
      before := udata;
      udata := udata + [Link(from1, zero[from1].next, from2, zero[from2].prev)];
    }

    /** `relink`: any two links may be changed; Valid says undo still works. */
    method Relink(to1: int, from1: int, from2: int, to2: int)
      requires Valid() && Started() && 0 <= from1 < |zero| && 0 <= from2 < |zero|
      modifies this`zero, this`udata, this`ucurln, this`ulastln, this`newcmd, this`modflag, this`base
      ensures Valid() && Started() && !newcmd && modflag
      ensures zero == Relinked(old(zero), to1, from1, from2, to2)
      ensures old(newcmd) ==> base == old(Now(ocurln, olastln))
      ensures !old(newcmd) ==> base == old(base)
    {
      ghost var before := NewUndo(from1, from2);
      UndoableRelink(zero, before, base, to1, from1, from2, to2);
      RelinkKeepsStored(zero, scratch, to1, from1, from2, to2);
      zero := Relinked(zero, to1, from1, from2, to2);
      modflag := true;
    }

    /** `undo`: every link, the order of the lines with their texts, and both
        counters are what they were when the logged command started, whatever
        links it changed and however many lines it wrote. */
    method Undo()
      requires Valid()
      modifies this`zero, this`udata, this`curln, this`lastln, this`ring, this`texts
      ensures Valid() && udata == [] && |zero| == old(|zero|)
      ensures old(udata) == [] ==> zero == old(zero) && Now(curln, lastln) == old(Now(curln, lastln))
      ensures old(udata) != [] ==> SameAs(Now(curln, lastln), base) && Linked()
    {
      LoggedIff(zero, udata, base, scratch, ucurln, ulastln);
      if udata == [] { return; }
      ghost var z0, log0 := zero, udata;
      Unwind();
      UndoneState(z0, log0, base, scratch, zero);
      curln, lastln := ucurln, ulastln;
      ring, texts := base.ring, base.texts;
    }

    /** `error`: a command that fails leaves the buffer as it found it. */
    method Error()
      requires Valid() && Started() && (newcmd ==> lastln == olastln)
      modifies this`zero, this`udata, this`curln, this`lastln, this`ring, this`texts
      ensures Linked() && SameAs(Now(curln, lastln), start)
    {
      if !newcmd { Undo(); }
      curln := ocurln;
    }

    /** The loop of `undo`, from the last entry of the log to the first. */
    method Unwind()
      requires LogOk(zero, udata)
      modifies this`zero, this`udata
      ensures udata == [] && zero == Undone(old(zero), old(udata))
    {
      while udata != []
        invariant LogOk(zero, udata) && Undone(zero, udata) == Undone(old(zero), old(udata))
        decreases |udata|
      {
        var p := udata[|udata| - 1];
        udata := udata[..|udata| - 1];
        zero := Relinked(zero, p.to1, p.from1, p.from2, p.to2);
      }
    }

    // ---------------------------------------------------------- moving about

    function NextLn(line: int): int
      reads this
    {
      if line + 1 > lastln then 0 else line + 1
    }

    function PrevLn(line: int): int
      reads this
    {
      if line - 1 < 0 then lastln else line - 1
    }

    /** `getindex`: follows next that many times. */
    method GetIndex(line: int) returns (k: int)
      requires Ring(zero, ring) && -1 <= line < |ring|
      ensures k == ring[if line == -1 then 0 else line]
    {
      RingIff(zero, ring);
      var target := if line == -1 then 0 else line;
      var n := 0;
      k := 0;
      while n != target
        invariant 0 <= n <= target && k == ring[n]
        decreases target - n
      {
        k := zero[k].next;
        n := n + 1;
      }
    }

    // ---------------------------------------------------------------- edits

    /** `makeline` for a non-empty text: its first line goes to the end of the
        scratch file and gets a new index, with whatever links the memory holds. */
    method MakeLine(s: string) returns (k: int, off: nat)
      requires Valid() && Started() && s != [] && s[|s| - 1] == '\n'
      requires Ring(zero, ring) && Spelled(zero, ring, scratch, texts)
      modifies this`zero, this`scratch
      ensures Valid() && Started() && off == FirstLine(s) && k == old(|zero|)
      ensures |zero| == k + 1 && zero[..k] == old(zero) && k !in ring
      ensures Ring(zero, ring) && Spelled(zero, ring, scratch, texts) && TextIs(scratch, zero[k].seek, s[..off])
    {
      LoggedIff(zero, udata, base, scratch, ucurln, ulastln);
      off := Measure(s);
      k := |zero|;
      var next: int, prev: int := *, *;
      var x := Line(|scratch|, next, prev);
      LineAdded(zero, ring, scratch, texts, x, s[..off]);
      UndoableLine(zero, udata, base, x);
      SpelledMore(base.zero, base.ring, scratch, base.texts, s[..off]);
      scratch := scratch + s[..off];
      zero := zero + [x];
    }

    /** One turn of the loop of `inject`: the line goes between the neighbours
        begin and end, found at position c of the ring. */
    method InjectLine(s: string, begin: int, end: int, ghost c: nat) returns (k: int, off: nat)
      requires Valid() && Started() && s != [] && s[|s| - 1] == '\n'
      requires Ring(zero, ring) && Spelled(zero, ring, scratch, texts)
      requires c < |ring| && begin == ring[c] && end == ring[Succ(c, |ring|)]
      modifies this`zero, this`scratch, this`udata, this`ucurln, this`ulastln, this`newcmd, this`modflag, this`base
      modifies this`ring, this`texts
      ensures Valid() && Started() && !newcmd && off == FirstLine(s) && k == old(|zero|) && |zero| == k + 1
      ensures Ring(zero, ring) && Spelled(zero, ring, scratch, texts)
      ensures ring == old(ring[..c + 1]) + [k] + old(ring[c + 1..])
      ensures k == ring[c + 1] && end == ring[Succ(c + 1, |ring|)]
      ensures texts == old(texts[..c]) + [s[..off]] + old(texts[c..])
    {
      k, off := MakeLine(s);
      LinkIn(k, begin, end, c, s[..off]);
    }

    /** Its two relinks. */
    method LinkIn(k: int, begin: int, end: int, ghost c: nat, ghost t: string)
      requires Valid() && Started() && 0 <= k < |zero| && k !in ring && TextIs(scratch, zero[k].seek, t)
      requires Ring(zero, ring) && Spelled(zero, ring, scratch, texts)
      requires c < |ring| && begin == ring[c] && end == ring[Succ(c, |ring|)]
      modifies this`zero, this`udata, this`ucurln, this`ulastln, this`newcmd, this`modflag, this`base
      modifies this`ring, this`texts
      ensures Valid() && Started() && !newcmd && |zero| == old(|zero|)
      ensures Ring(zero, ring) && Spelled(zero, ring, scratch, texts)
      ensures ring == old(ring[..c + 1]) + [k] + old(ring[c + 1..])
      ensures texts == old(texts[..c]) + [t] + old(texts[c..])
    {
      ghost var z := zero;
      Relink(k, begin, k, begin);
      ghost var y := zero;
      Relink(end, k, end, k);
      LinkedIn(z, y, zero, ring, scratch, texts, c, k, t);
      ring, texts := ring[..c + 1] + [k] + ring[c + 1..], texts[..c] + [t] + texts[c..];
    }

    /** The loop of `inject` once the neighbours are known: the lines of the text
        come to stand after position c. */
    method InjectAll(s: string, begin: int, end: int, ghost c: nat)
      requires Valid() && Started() && (s == [] || s[|s| - 1] == '\n')
      requires Ring(zero, ring) && Spelled(zero, ring, scratch, texts)
      requires c < |ring| && begin == ring[c] && end == ring[Succ(c, |ring|)]
      modifies this`zero, this`scratch, this`udata, this`ucurln, this`ulastln, this`newcmd, this`modflag, this`base
      modifies this`ring, this`texts, this`curln, this`lastln
      ensures Valid() && Started() && Ring(zero, ring) && Spelled(zero, ring, scratch, texts)
      ensures s != [] || !old(newcmd) ==> !newcmd
      ensures texts == old(texts[..c]) + SplitLines(s) + old(texts[c..])
      ensures curln == old(curln) + |SplitLines(s)| && lastln == old(lastln) + |SplitLines(s)|
      ensures s != [] ==> |ring| > c + 1 && ring[c + 1] == old(|zero|)
      ensures ring[..c + 1] == old(ring[..c + 1])
    {
      ghost var texts0, ring0, k0 := texts, ring, |zero|;
      var rest, b := s, begin;
      ghost var at: nat, done: seq<string> := c, [];
      SplicedNone(texts, c);
      while rest != []
        invariant Valid() && Started() && Ring(zero, ring) && Spelled(zero, ring, scratch, texts)
        invariant Injecting(s, rest, c, at, done, b, end, ring, k0)
        invariant rest != s || !old(newcmd) ==> !newcmd
        invariant texts == texts0[..c] + done + texts0[c..] && ring[..c + 1] == ring0[..c + 1]
        invariant curln == old(curln) + |done| && lastln == old(lastln) + |done|
        invariant at == c ==> |zero| == k0
        decreases |rest|
      {
        var k, off := InjectTurn(s, rest, c, at, done, b, end, k0, texts0);
        done := done + [rest[..off]];
        rest := rest[off..];
        b, at := k, at + 1;
      }
      assert done + [] == done;
    }

    /** One turn of it. */
    method InjectTurn(ghost s: string, rest: string, ghost c: nat, ghost at: nat, ghost done: seq<string>, b: int,
                      end: int, ghost k0: int, ghost texts0: seq<string>)
      returns (k: int, off: nat)
      requires Valid() && Started() && Ring(zero, ring) && Spelled(zero, ring, scratch, texts)
      requires Injecting(s, rest, c, at, done, b, end, ring, k0) && rest != [] && (at == c ==> |zero| == k0)
      requires c <= |texts0| && texts == texts0[..c] + done + texts0[c..]
      modifies this`zero, this`scratch, this`udata, this`ucurln, this`ulastln, this`newcmd, this`modflag, this`base
      modifies this`ring, this`texts, this`curln, this`lastln
      ensures Valid() && Started() && !newcmd && Ring(zero, ring) && Spelled(zero, ring, scratch, texts)
      ensures off == FirstLine(rest)
      ensures Injecting(s, rest[off..], c, at + 1, done + [rest[..off]], k, end, ring, k0)
      ensures ring[..c + 1] == old(ring)[..c + 1]
      ensures texts == texts0[..c] + (done + [rest[..off]]) + texts0[c..]
      ensures curln == old(curln) + 1 && lastln == old(lastln) + 1
    {
      ghost var texts1, ring1 := texts, ring;
      k, off := InjectLine(rest, b, end, at);
      InjectingStep(s, rest, c, at, done, b, end, ring1, ring, k, k0);
      Spliced(texts0[..c], done, texts0[c..], texts1, rest[..off]);
      lastln, curln := lastln + 1, curln + 1;
    }

    /** `inject`.  After the current line, or before it, the lines of the text
        are spliced in.  Before line 0 of a buffer that has lines, the new ring
        leaves all of them out although `lastln` still counts them. */
    method Inject(s: string, place: Where)
      requires Linked() && Started() && (s == [] || s[|s| - 1] == '\n')
      modifies this`zero, this`scratch, this`udata, this`ucurln, this`ulastln, this`newcmd, this`modflag, this`base
      modifies this`ring, this`texts, this`curln, this`lastln
      ensures Valid() && Started() && curln == old(curln) + |SplitLines(s)| && lastln == old(lastln) + |SplitLines(s)|
      ensures s != [] ==> !newcmd
      ensures Ring(zero, ring) && Spelled(zero, ring, scratch, texts)
      ensures LosesLines(old(Now(curln, lastln)), place) ==> texts == if s == [] then old(texts) else SplitLines(s)
      ensures !LosesLines(old(Now(curln, lastln)), place) ==>
                Linked() && Injected(old(Now(curln, lastln)), Now(curln, lastln), place, SplitLines(s))
    {
      var line := if place == Before then curln - 1 else curln;
      var begin := GetIndex(line);
      var end := GetIndex(NextLn(line));
      if line == -1 && lastln > 0 {
        if s != [] { InjectLost(s, begin, end); }
      } else {
        InjectBetween(s, place, begin, end);
      }
    }

    /** `inject` between two neighbours. */
    method InjectBetween(s: string, ghost place: Where, begin: int, end: int)
      requires Linked() && Started() && (s == [] || s[|s| - 1] == '\n') && !LosesLines(Now(curln, lastln), place)
      requires var c := Position(Now(curln, lastln), place); begin == ring[c] && end == ring[Succ(c, |ring|)]
      modifies this`zero, this`scratch, this`udata, this`ucurln, this`ulastln, this`newcmd, this`modflag, this`base
      modifies this`ring, this`texts, this`curln, this`lastln
      ensures Linked() && Started() && curln == old(curln) + |SplitLines(s)| && lastln == old(lastln) + |SplitLines(s)|
      ensures s != [] ==> !newcmd
      ensures Injected(old(Now(curln, lastln)), Now(curln, lastln), place, SplitLines(s))
    {
      ghost var c := Position(Now(curln, lastln), place);
      Lengths(texts, c, SplitLines(s));
      InjectAll(s, begin, end, c);
    }

    /** The loop of `inject` when both neighbours are line 0 of a buffer that has
        lines. */
    method InjectLost(s: string, begin: int, end: int)
      requires Linked() && Started() && s != [] && s[|s| - 1] == '\n' && begin == end == 0
      modifies this`zero, this`scratch, this`udata, this`ucurln, this`ulastln, this`newcmd, this`modflag, this`base
      modifies this`ring, this`texts, this`curln, this`lastln
      ensures Valid() && Started() && !newcmd && Ring(zero, ring) && Spelled(zero, ring, scratch, texts)
      ensures texts == SplitLines(s)
      ensures curln == old(curln) + |SplitLines(s)| && lastln == old(lastln) + |SplitLines(s)|
    {
      var k, rest, t := InjectAlone(s);
      InjectRest(rest, k, end, t);
    }

    /** Its other turns. */
    method InjectRest(s: string, begin: int, end: int, ghost t: string)
      requires Valid() && Started() && Ring(zero, ring) && Spelled(zero, ring, scratch, texts)
      requires s == [] || s[|s| - 1] == '\n'
      requires |ring| == 2 && begin == ring[1] && end == 0 && texts == [t]
      modifies this`zero, this`scratch, this`udata, this`ucurln, this`ulastln, this`newcmd, this`modflag, this`base
      modifies this`ring, this`texts, this`curln, this`lastln
      ensures Valid() && Started() && Ring(zero, ring) && Spelled(zero, ring, scratch, texts)
      ensures !old(newcmd) ==> !newcmd
      ensures texts == [t] + SplitLines(s)
      ensures curln == old(curln) + |SplitLines(s)| && lastln == old(lastln) + |SplitLines(s)|
    {
      RestOf([t], SplitLines(s));
      InjectAll(s, begin, end, 1);
    }

    /** Its first turn. */
    method InjectAlone(s: string) returns (k: int, rest: string, ghost t: string)
      requires Linked() && Started() && s != [] && s[|s| - 1] == '\n'
      modifies this`zero, this`scratch, this`udata, this`ucurln, this`ulastln, this`newcmd, this`modflag, this`base
      modifies this`ring, this`texts, this`curln, this`lastln
      ensures Valid() && Started() && !newcmd && Ring(zero, ring) && Spelled(zero, ring, scratch, texts)
      ensures ring == [0, k] && texts == [t] && (rest == [] || rest[|rest| - 1] == '\n')
      ensures SplitLines(s) == [t] + SplitLines(rest)
      ensures curln == old(curln) + 1 && lastln == old(lastln) + 1
    {
      var off;
      k, off := MakeLine(s);
      rest, t := s[off..], s[..off];
      LinkAlone(k, t);
      lastln, curln := lastln + 1, curln + 1;
      assert rest != [] ==> rest[|rest| - 1] == s[|s| - 1];
    }

    /** The same two relinks with line 0 on both sides. */
    method LinkAlone(k: int, ghost t: string)
      requires Valid() && Started() && 0 < k < |zero| && TextIs(scratch, zero[k].seek, t)
      modifies this`zero, this`udata, this`ucurln, this`ulastln, this`newcmd, this`modflag, this`base
      modifies this`ring, this`texts
      ensures Valid() && Started() && !newcmd && |zero| == old(|zero|)
      ensures Ring(zero, ring) && Spelled(zero, ring, scratch, texts)
      ensures ring == [0, k] && texts == [t]
    {
      ghost var z := zero;
      Relink(k, 0, k, 0);
      ghost var y := zero;
      Relink(0, k, 0, k);
      LinkedAlone(z, y, zero, scratch, k, t);
      ring, texts := [0, k], [t];
    }

    /** `delete`: the lines from..to are unlinked; line 0 cannot be. */
    method Delete(from: int, to: int) returns (ok: bool)
      requires Linked() && Started() && 0 <= from <= to <= lastln
      modifies this
      ensures start == old(start)
      ensures ok <==> from > 0
      ensures !ok ==> Linked() && SameAs(Now(curln, lastln), start)
      ensures ok ==>
                && Linked() && Started() && !newcmd && |zero| == old(|zero|)
                && texts == old(texts)[..from - 1] + old(texts)[to..]
                && ring == old(ring)[..from] + old(ring)[to + 1..]
                && curln == if to == old(lastln) then from - 1 else from
    {
      if from == 0 {
        Error();
        return false;
      }
      DeleteRange(from, to);
      ok := true;
    }

    method DeleteRange(from: int, to: int)
      requires Linked() && Started() && 1 <= from <= to <= lastln
      modifies this
      ensures Linked() && Started() && !newcmd && start == old(start) && |zero| == old(|zero|)
      ensures texts == old(texts)[..from - 1] + old(texts)[to..]
      ensures ring == old(ring)[..from] + old(ring)[to + 1..]
      ensures curln == if to == old(lastln) then from - 1 else from
    {
      var lfrom := GetIndex(PrevLn(from));
      var lto := GetIndex(NextLn(to));
      lastln := lastln - (to - from + 1);
      curln := if from > lastln then lastln else from;
      Unlink(from, to, lfrom, lto);
    }

    /** Its relink. */
    method Unlink(from: int, to: int, lfrom: int, lto: int)
      requires Valid() && Started() && Ring(zero, ring) && Spelled(zero, ring, scratch, texts)
      requires 1 <= from <= to < |ring| && lfrom == ring[from - 1] && lto == ring[Succ(to, |ring|)]
      modifies this`zero, this`udata, this`ucurln, this`ulastln, this`newcmd, this`modflag, this`base
      modifies this`ring, this`texts
      ensures Valid() && Started() && !newcmd && |zero| == old(|zero|)
      ensures Ring(zero, ring) && Spelled(zero, ring, scratch, texts)
      ensures texts == old(texts)[..from - 1] + old(texts)[to..]
      ensures ring == old(ring)[..from] + old(ring)[to + 1..]
    {
      ghost var z := zero;
      Relink(lto, lfrom, lto, lfrom);
      Unlinked(z, zero, ring, scratch, texts, from, to);
      ring, texts := ring[..from] + ring[to + 1..], texts[..from - 1] + texts[to..];
    }

    // ---------------------------------------------------------------- texts

    /** `gettxt`: the text of a line, newline included, and nothing for line 0;
        whatever block happens to be in memory. */
    method GetText(line: int) returns (text: string)
      requires Stored(zero, scratch) && Cached(scratch, buf, lasto)
      requires Ring(zero, ring) && Spelled(zero, ring, scratch, texts) && -1 <= line < |ring|
      modifies this`buf, this`lasto
      ensures Cached(scratch, buf, lasto)
      ensures text == if line <= 0 then "" else texts[line - 1]
    {
      var k := GetIndex(line);
      var off := zero[k].seek;
      text := "";
      if off == -1 {
        assert line > 0 ==> TextIs(scratch, zero[ring[line - 1 + 1]].seek, texts[line - 1]);
        return;
      }
      assert line > 0;
      assert TextIs(scratch, zero[ring[line - 1 + 1]].seek, texts[line - 1]);
      text := ReadLine(off);
    }

    /** Its two loops: copy up to a newline or the end of the cached block, and
        read another block as long as no newline was met. */
    method ReadLine(seek: int) returns (text: string)
      requires Cached(scratch, buf, lasto) && Terminated(scratch, seek)
      modifies this`buf, this`lasto
      ensures Cached(scratch, buf, lasto) && text == LineAt(scratch, seek)
    {
      var off := seek;
      text := "";
      var more := true;
      while more
        invariant Cached(scratch, buf, lasto) && Reading(scratch, seek, off, text)
        invariant !more ==> scratch[off] == '\n'
        decreases more, |scratch| - off
      {
        if buf == "" || off < lasto || off - lasto >= |buf| { ReadBlock(off); }
        text, off := ReadCached(seek, off, text);
        more := off - lasto == |buf|;
      }
      ReadEnd(scratch, seek, off, text);
      text := text + "\n";
    }

    /** The inner loop. */
    method ReadCached(ghost seek: int, off: int, text: string) returns (text': string, off': int)
      requires Cached(scratch, buf, lasto) && Reading(scratch, seek, off, text) && lasto <= off < lasto + |buf|
      ensures Reading(scratch, seek, off', text') && off <= off' <= lasto + |buf|
      ensures if off' == lasto + |buf| then off < off' else scratch[off'] == '\n'
    {
      text', off' := text, off;
      while off' - lasto < |buf| && buf[off' - lasto] != '\n'
        invariant off <= off' <= lasto + |buf| && Reading(scratch, seek, off', text')
        decreases lasto + |buf| - off'
      {
        CacheAt(scratch, buf, lasto, off');
        ReadOn(scratch, seek, off', text');
        text', off' := text' + [buf[off' - lasto]], off' + 1;
      }
      if off' - lasto < |buf| { CacheAt(scratch, buf, lasto, off'); }
    }

    /** Reads the aligned block that holds an offset. */
    method ReadBlock(off: int)
      requires 0 <= off < |scratch|
      modifies this`buf, this`lasto
      ensures Cached(scratch, buf, lasto) && lasto <= off < lasto + |buf|
    {
      var block := off - off % CACHESIZ;
      var n := if |scratch| - block < CACHESIZ then |scratch| - block else CACHESIZ;
      buf, lasto := scratch[block..block + n], block;
    }

    /** `join`: the lines from..to become one line.  It stands where they stood
        if and only if a line follows them or none comes before; after the last
        lines of a longer buffer it ends up one line too early. */
    method Join(from: int, to: int)
      requires Linked() && Started() && 1 <= from <= to <= lastln
      modifies this
      ensures Linked() && Started() && !newcmd && start == old(start) && lastln == |texts|
      ensures forall i :: 0 <= i < |old(texts)| ==> OneLine(old(texts)[i])
      ensures var was, joined := old(texts), Joined(old(texts), from, to) + "\n";
              var p := if to < old(lastln) || from == 1 then from - 1 else from - 2;
              texts == was[..p] + [joined] + was[p..from - 1] + was[to..]
      ensures |ring| > from && (ring[from] == old(|zero|) <==> to < old(lastln) || from == 1)
      ensures curln == if to < old(lastln) then from + 1 else from
    {
      TextsAreLines(zero, ring, scratch, texts);
      var s := Collect(from, to);
      JoinedIsPlain(texts, from, to);
      Replace(from, to, s + "\n");
    }

    /** Its last part: the lines go, the joined line comes. */
    method Replace(from: int, to: int, s: string)
      requires Linked() && Started() && 1 <= from <= to <= lastln
      requires OneLine(s)
      modifies this
      ensures Linked() && Started() && !newcmd && start == old(start) && lastln == |texts|
      ensures var p := if to < old(lastln) || from == 1 then from - 1 else from - 2;
              texts == old(texts)[..p] + [s] + old(texts)[p..from - 1] + old(texts)[to..]
      ensures |ring| > from && (ring[from] == old(|zero|) <==> to < old(lastln) || from == 1)
      ensures curln == if to < old(lastln) then from + 1 else from
    {
      ghost var was, ring0, k := texts, ring, |zero|;
      var ok := Delete(from, to);
      // The only call with Before: line 0 is current only in an empty buffer.
      assert ok && !LosesLines(Now(curln, lastln), Before);
      InjectOne(s);
      JoinResult(was, texts, ring0, ring, from, to, s, k);
    }

    /** `inject` of one line before the current one. */
    method InjectOne(s: string)
      requires Linked() && Started() && OneLine(s) && !LosesLines(Now(curln, lastln), Before)
      modifies this`zero, this`scratch, this`udata, this`ucurln, this`ulastln, this`newcmd, this`modflag, this`base
      modifies this`ring, this`texts, this`curln, this`lastln
      ensures Linked() && Started() && !newcmd && curln == old(curln) + 1
      ensures var c := if old(curln) > 0 then old(curln) - 1 else 0;
              && c <= |old(texts)| && texts == old(texts)[..c] + [s] + old(texts)[c..]
              && c < |old(ring)| && |ring| > c + 1 && ring[c + 1] == old(|zero|) && ring[..c + 1] == old(ring)[..c + 1]
      ensures Distinct(ring) && |ring| == |texts| + 1 && lastln == |texts|
    {
      SplitOne(s);
      Inject(s, Before);
      RingIff(zero, ring);
    }

    /** Its loop, which reads the texts. */
    method Collect(from: int, last: int) returns (s: string)
      requires Readable() && 1 <= from <= last <= lastln
      modifies this`buf, this`lasto
      ensures Cached(scratch, buf, lasto) && s == Joined(texts, from, last)
    {
      s := "";
      var i := from;
      while true
        invariant Cached(scratch, buf, lasto) && from <= i <= last && s == Joined(texts, from, i - 1)
        decreases last - i
      {
        s := AppendBody(s, from, i);
        if i == last { break; }
        i := NextLn(i);
      }
    }

    /** One turn of it: the characters of a line up to its newline. */
    method AppendBody(s: string, ghost from: int, i: int) returns (s': string)
      requires Readable() && 1 <= from <= i <= lastln && s == Joined(texts, from, i - 1)
      modifies this`buf, this`lasto
      ensures Cached(scratch, buf, lasto) && s' == Joined(texts, from, i)
    {
      var t := GetText(i);
      TextsAreLines(zero, ring, scratch, texts);
      s' := CopyBody(s, t);
    }

    method CopyBody(s: string, t: string) returns (s': string)
      requires OneLine(t)
      ensures s' == s + Body(t)
    {
      s' := s;
      var k := 0;
      assert t[0..] == t;
      while t[k] != '\n'
        invariant 0 <= k < |t| && s' + Body(t[k..]) == s + Body(t)
        decreases |t| - k
      {
        assert t[k..][1..] == t[k + 1..];
        assert (s' + [t[k]]) + Body(t[k + 1..]) == s' + ([t[k]] + Body(t[k + 1..]));
        s' := s' + [t[k]];
        k := k + 1;
      }
      assert k == |t| - 1 && t[k..][1..] == "";
    }

    ghost predicate Readable()
      reads this
    {
      && Stored(zero, scratch) && Cached(scratch, buf, lasto)
      && Ring(zero, ring) && Spelled(zero, ring, scratch, texts) && lastln == |texts|
    }
  }

  /** The part of a line that has been read before off. */
  ghost predicate Reading(scratch: string, seek: int, off: int, text: string) {
    Terminated(scratch, off) && Terminated(scratch, seek) && text + LineAt(scratch, off) == LineAt(scratch, seek)
  }

  lemma CacheAt(scratch: string, buf: string, lasto: int, off: int)
    requires Cached(scratch, buf, lasto) && lasto <= off < lasto + |buf|
    ensures buf[off - lasto] == scratch[off]
  {
  }

  lemma ReadOn(scratch: string, seek: int, off: int, text: string)
    requires Reading(scratch, seek, off, text) && scratch[off] != '\n'
    ensures Reading(scratch, seek, off + 1, text + [scratch[off]])
  {
    assert (text + [scratch[off]]) + LineAt(scratch, off + 1) == text + ([scratch[off]] + LineAt(scratch, off + 1));
  }

  lemma ReadEnd(scratch: string, seek: int, off: int, text: string)
    requires Reading(scratch, seek, off, text) && scratch[off] == '\n'
    ensures text + "\n" == LineAt(scratch, seek)
  {
  }

  /** Joining the last two of three lines: the joined line comes to stand before
      the first. */
  method JoinLastTwo(b: Buffer, ghost x: string, ghost y: string, ghost z: string)
    requires b.Linked() && b.Started() && b.texts == [x + "\n", y + "\n", z + "\n"]
    requires '\n' !in x && '\n' !in y && '\n' !in z
    modifies b
    ensures b.texts == [y + z + "\n", x + "\n"]
  {
    b.Join(2, 3);
    JoinedTwo(x, y, z);
  }

  lemma JoinedTwo(x: string, y: string, z: string)
    requires '\n' !in x && '\n' !in y && '\n' !in z
    ensures var was := [x + "\n", y + "\n", z + "\n"];
            && Joined(was, 2, 3) == y + z
            && forall s :: was[..0] + [s] + was[0..1] + was[3..] == [s, x + "\n"]
  {
    var was := [x + "\n", y + "\n", z + "\n"];
    BodyOf(y);
    BodyOf(z);
    assert Joined(was, 2, 1) == "" && "" + y == y && Joined(was, 2, 2) == y;
  }

  lemma JoinResult(was: seq<string>, now: seq<string>, r0: seq<int>, r: seq<int>, from: int, to: int, s: string, k: int)
    requires 1 <= from <= to <= |was| && |r0| == |was| + 1
    requires var left := was[..from - 1] + was[to..];
             var c := if to < |was| then from - 1 else if from == 1 then 0 else from - 2;
             && now == left[..c] + [s] + left[c..]
             && |r| > c + 1 && r[c + 1] == k && r[..c + 1] == (r0[..from] + r0[to + 1..])[..c + 1]
    requires k !in r0 && |r| == |now| + 1 && Distinct(r)
    ensures var p := if to < |was| || from == 1 then from - 1 else from - 2;
            now == was[..p] + [s] + was[p..from - 1] + was[to..]
    ensures |r| > from && (r[from] == k <==> to < |was| || from == 1)
  {
    if to == |was| && from > 1 {
      assert r[from - 1] == k && r[from] != k;
    }
  }

  lemma TextsAreLines(zero: seq<Line>, ring: seq<int>, scratch: string, texts: seq<string>)
    requires Within(ring, |zero|) && Spelled(zero, ring, scratch, texts)
    ensures forall i :: 0 <= i < |texts| ==> OneLine(texts[i])
  {
    forall i | 0 <= i < |texts| ensures OneLine(texts[i]) {
      assert TextIs(scratch, zero[ring[i + 1]].seek, texts[i]);
      LineAtIsOneLine(scratch, zero[ring[i + 1]].seek);
    }
  }

  lemma Unlinked(z: seq<Line>, x: seq<Line>, r: seq<int>, scratch: string, texts: seq<string>, from: nat, to: nat)
    requires Ring(z, r) && Spelled(z, r, scratch, texts) && 1 <= from <= to < |r|
    requires var b, e := r[from - 1], r[Succ(to, |r|)]; x == Relinked(z, e, b, e, b)
    ensures var q := r[..from] + r[to + 1..];
            Ring(x, q) && Spelled(x, q, scratch, texts[..from - 1] + texts[to..])
  {
    var b, e := r[from - 1], r[Succ(to, |r|)];
    RingDelete(z, r, from, to);
    SeekKept(z, e, b, e, b);
    SpelledDelete(z, x, r, scratch, texts, from, to);
  }

  lemma LinkedAlone(z: seq<Line>, y: seq<Line>, x: seq<Line>, scratch: string, k: int, t: string)
    requires 0 < k < |z| && TextIs(scratch, z[k].seek, t)
    requires y == Relinked(z, k, 0, k, 0) && x == Relinked(y, 0, k, 0, k)
    ensures Ring(x, [0, k]) && Spelled(x, [0, k], scratch, [t])
  {
    RingRestart(z, k);
  }

  /** Invariant of the loop of `inject`: `done` has been linked in after
      position c, and the next line goes after position at. */
  ghost predicate Injecting(s: string, rest: string, c: nat, at: nat, done: seq<string>, b: int, end: int,
                            ring: seq<int>, k0: int) {
    && (s == [] || s[|s| - 1] == '\n') && (rest == [] || rest[|rest| - 1] == '\n')
    && at == c + |done| < |ring| && b == ring[at] && end == ring[Succ(at, |ring|)]
    && SplitLines(s) == done + SplitLines(rest)
    && (at == c || ring[c + 1] == k0)
    && (at == c ==> rest == s)
  }

  lemma InjectingStep(s: string, rest: string, c: nat, at: nat, done: seq<string>, b: int, end: int, ring: seq<int>,
                      ring': seq<int>, k: int, k0: int)
    requires Injecting(s, rest, c, at, done, b, end, ring, k0) && rest != []
    requires ring' == ring[..at + 1] + [k] + ring[at + 1..] && (at == c ==> k == k0)
    ensures var off := FirstLine(rest);
            Injecting(s, rest[off..], c, at + 1, done + [rest[..off]], k, end, ring', k0)
    ensures ring'[..c + 1] == ring[..c + 1]
  {
    SplitStep(rest, done);
    assert ring'[at + 1] == k && ring'[Succ(at + 1, |ring'|)] == end;
    assert at > c ==> ring'[c + 1] == ring[c + 1];
    assert ring[..at + 1][..c + 1] == ring[..c + 1] == ring'[..c + 1];
  }

  lemma SplitStep(rest: string, done: seq<string>)
    requires rest != [] && rest[|rest| - 1] == '\n'
    ensures var off := FirstLine(rest);
            && (rest[off..] == [] || rest[off..][|rest[off..]| - 1] == '\n')
            && done + SplitLines(rest) == (done + [rest[..off]]) + SplitLines(rest[off..])
  {
    var off := FirstLine(rest);
    Assoc(done, [rest[..off]], SplitLines(rest[off..]));
  }

  lemma RestOf(a: seq<string>, b: seq<string>)
    requires |a| == 1
    ensures a[..1] + b + a[1..] == a + b && [] + (a + b) == a + b && [] + a == a
  {
  }

  lemma Lengths(texts: seq<string>, c: nat, more: seq<string>)
    requires c <= |texts|
    ensures |texts[..c] + more + texts[c..]| == |texts| + |more|
  {
  }

  lemma SplicedNone(texts: seq<string>, c: nat)
    requires c <= |texts|
    ensures texts == texts[..c] + [] + texts[c..]
  {
  }

  lemma Spliced(a: seq<string>, done: seq<string>, b: seq<string>, texts: seq<string>, t: string)
    requires texts == a + done + b
    ensures texts[..|a| + |done|] + [t] + texts[|a| + |done|..] == a + (done + [t]) + b
  {
  }

  lemma SpelledDelete(z: seq<Line>, y: seq<Line>, r: seq<int>, scratch: string, texts: seq<string>, from: nat, to: nat)
    requires |y| == |z| && Within(r, |z|) && forall i :: 0 <= i < |z| ==> y[i].seek == z[i].seek
    requires Spelled(z, r, scratch, texts) && 1 <= from <= to < |r|
    ensures var q := r[..from] + r[to + 1..];
            Within(q, |y|) && Spelled(y, q, scratch, texts[..from - 1] + texts[to..])
  {
    var q := r[..from] + r[to + 1..];
    var u := texts[..from - 1] + texts[to..];
    forall i {:trigger u[i]} | 0 <= i < |u| ensures TextIs(scratch, y[q[i + 1]].seek, u[i]) {
      var j := if i < from - 1 then i else i + to + 1 - from;
      assert u[i] == texts[j] && q[i + 1] == r[j + 1];
    }
  }

  lemma LinkedIn(z: seq<Line>, y: seq<Line>, x: seq<Line>, r: seq<int>, scratch: string, texts: seq<string>, c: nat,
                 k: int, t: string)
    requires Ring(z, r) && Spelled(z, r, scratch, texts) && c < |r|
    requires 0 <= k < |z| && k !in r && TextIs(scratch, z[k].seek, t)
    requires y == Relinked(z, k, r[c], k, r[c])
    requires x == Relinked(y, r[Succ(c, |r|)], k, r[Succ(c, |r|)], k)
    ensures var q := r[..c + 1] + [k] + r[c + 1..];
            Ring(x, q) && Spelled(x, q, scratch, texts[..c] + [t] + texts[c..])
  {
    RingInsert(z, r, c, k);
    SeekKept(z, k, r[c], k, r[c]);
    SeekKept(y, r[Succ(c, |r|)], k, r[Succ(c, |r|)], k);
    SpelledInsert(z, x, r, scratch, texts, c, k, t);
  }

  lemma SeekKept(z: seq<Line>, to1: int, from1: int, from2: int, to2: int)
    requires 0 <= from1 < |z| && 0 <= from2 < |z|
    ensures var y := Relinked(z, to1, from1, from2, to2);
            |y| == |z| && forall i :: 0 <= i < |z| ==> y[i].seek == z[i].seek
  {
  }

  /** The loop of `makeline` that measures a line. */
  method Measure(s: string) returns (len: nat)
    requires s != [] && s[|s| - 1] == '\n'
    ensures len == FirstLine(s)
  {
    len := 0;
    while s[len] != '\n'
      invariant 0 <= len < |s| && forall i :: 0 <= i < len ==> s[i] != '\n'
      decreases |s| - len
    {
      len := len + 1;
    }
    len := len + 1;
    FirstLineIs(s, len);
  }

  lemma LineAdded(zero: seq<Line>, ring: seq<int>, scratch: string, texts: seq<string>, x: Line, line: string)
    requires Stored(zero, scratch) && Ring(zero, ring) && Spelled(zero, ring, scratch, texts)
    requires x.seek == |scratch| && line != [] && line[|line| - 1] == '\n' && '\n' !in line[..|line| - 1]
    ensures Stored(zero + [x], scratch + line) && Ring(zero + [x], ring) && |zero| !in ring
    ensures Spelled(zero + [x], ring, scratch + line, texts) && TextIs(scratch + line, x.seek, line)
  {
    LineWritten(scratch, line);
    StoredMore(zero, scratch, line);
    SpelledMore(zero, ring, scratch, texts, line);
    RingExtend(zero, ring, x);
    SpelledPrefix(zero, zero + [x], ring, scratch + line, texts);
  }

  lemma SpelledPrefix(z: seq<Line>, y: seq<Line>, ring: seq<int>, scratch: string, texts: seq<string>)
    requires Within(ring, |z|) && Spelled(z, ring, scratch, texts) && |z| <= |y| && y[..|z|] == z
    ensures Within(ring, |y|) && Spelled(y, ring, scratch, texts)
  {
    assert forall k :: 0 <= k < |z| ==> y[k] == z[k];
    forall i {:trigger texts[i]} | 0 <= i < |texts| ensures TextIs(scratch, y[ring[i + 1]].seek, texts[i]) {
      assert y[ring[i + 1]] == z[ring[i + 1]];
    }
  }

  lemma SpelledInsert(z: seq<Line>, y: seq<Line>, r: seq<int>, scratch: string, texts: seq<string>, c: nat, k: int,
                      t: string)
    requires |y| == |z| && Within(r, |z|) && forall i :: 0 <= i < |z| ==> y[i].seek == z[i].seek
    requires Spelled(z, r, scratch, texts) && c < |r| && 0 <= k < |z| && TextIs(scratch, z[k].seek, t)
    ensures var q := r[..c + 1] + [k] + r[c + 1..];
            Within(q, |y|) && Spelled(y, q, scratch, texts[..c] + [t] + texts[c..])
  {
    var q := r[..c + 1] + [k] + r[c + 1..];
    var u := texts[..c] + [t] + texts[c..];
    forall i {:trigger u[i]} | 0 <= i < |u| ensures TextIs(scratch, y[q[i + 1]].seek, u[i]) {
      if i < c { assert u[i] == texts[i] && q[i + 1] == r[i + 1]; }
      else if i > c { assert u[i] == texts[i - 1] && q[i + 1] == r[i]; }
    }
  }

  lemma UndoneState(z0: seq<Line>, log: seq<Link>, base: Saved, scratch: string, zero: seq<Line>)
    requires Undoable(z0, log, base) && Consistent(base, scratch) && Stored(z0, scratch) && zero == Undone(z0, log)
    ensures Stored(zero, scratch) && zero[..|base.zero|] == base.zero && Undoable(zero, [], base)
    ensures Ring(zero, base.ring) && Spelled(zero, base.ring, scratch, base.texts)
  {
    UndoneKeepsSeek(z0, log);
    PrefixRing(zero, base.zero, base.ring);
    assert forall i :: 0 <= i < |base.ring| ==> zero[base.ring[i]] == base.zero[base.ring[i]];
  }

  lemma RelinkKeepsStored(zero: seq<Line>, scratch: string, to1: int, from1: int, from2: int, to2: int)
    requires Stored(zero, scratch) && 0 <= from1 < |zero| && 0 <= from2 < |zero|
    ensures Stored(Relinked(zero, to1, from1, from2, to2), scratch)
  {
  }

  lemma PrefixRing(zero: seq<Line>, z: seq<Line>, r: seq<int>)
    requires Ring(z, r) && |z| <= |zero| && zero[..|z|] == z
    ensures Ring(zero, r)
  {
    RingIff(z, r);
    assert forall k :: 0 <= k < |z| ==> zero[k] == z[k];
    forall i | 0 <= i < |r| ensures zero[r[i]].next == r[Succ(i, |r|)] && zero[r[i]].prev == r[Pred(i, |r|)] {
      assert zero[r[i]] == z[r[i]];
    }
  }
}

/** join as it runs: two spans, growing arrays that hold one group each, filled
    from the files line by line. */
module JoinLoop {
  import opened Basics
  import opened Join

  const INIT := 1
  const GROW := 2

  /** An array slot that has not been written yet. */
  const UNSET := Line(None, "")

  /** The lines of one group, and the file they are read from. */
  class Span {
    var lines: seq<Line>
    var nl: nat
    var file: seq<Line>

    ghost predicate Valid()
      reads this
    {
      nl <= |lines| && lines != []
    }

    /** What is still to be joined when at most one line is held. */
    ghost function Rest(): seq<Line>
      reads this
      requires Valid()
    {
      if nl == 0 then [] else [lines[0]] + file
    }

    /** `initspan`, on a file not read yet. */
    constructor (file: seq<Line>)
      ensures Valid() && nl == 0 && this.file == file
    {
      this.file, lines, nl := file, seq(INIT, _ => UNSET), 0;
    }

    /** `addtospan`. */
    method Add(reset: bool) returns (more: bool)
      requires Valid()
      modifies this
      ensures Valid() && (more <==> old(file) != [])
      ensures !more ==> lines == old(lines) && nl == old(nl) && file == []
      ensures more ==>
                && file == old(file)[1..]
                && lines[..nl] == (if reset then [] else old(lines[..nl])) + [old(file)[0]]
    {
      if file == [] { return false; }
      var line := file[0];
      file := file[1..];
      if reset { nl := 0; }
      if nl >= |lines| {
        var grown := GROW * |lines|;
        lines := lines + seq(grown - |lines|, _ => UNSET);
      }
      lines := lines[nl := line];
      nl := nl + 1;
      more := true;
    }

    /** Reads on while lines match l.  The first line that does not is held after
        the group; at the end of the file nothing is, but counted all the same. */
    method ReadGroup(ord: Order, l: Line, second: bool) returns (eof: bool)
      requires Total(ord) && Valid() && nl == 1 && Same(lines[0], l)
      modifies this
      ensures lines != [] && GroupRead(old(Rest()), l, eof, lines, nl, file)
    {
      eof := false;
      ghost var all := Rest();
      assert lines[..1] == [lines[0]];
      while true
        invariant Valid() && 0 < nl && lines[..nl] + file == all && !eof
        invariant forall i :: 0 <= i < nl ==> Same(lines[i], l)
        decreases |file|
      {
        ghost var held := lines[..nl];
        ghost var todo := file;
        ghost var n := nl;
        var more := Add(false);
        if !more {
          EndsGroup(all, l, n);
          eof := true;
          nl := nl + 1;
          break;
        }
        assert lines[..nl] == held + [todo[0]] && todo == [todo[0]] + todo[1..];
        assert lines[..nl] + file == held + todo;
        forall i | 0 <= i < n ensures lines[i] == held[i] { assert lines[..nl][i] == held[i]; }
        var last := lines[nl - 1];
        CompareSame(ord, last, l);
        CompareSame(ord, l, last);
        if (if second then Compare(ord, l, last) else Compare(ord, last, l)) != 0 {
          EndsGroup(all, l, n);
          break;
        }
      }
    }

    /** `swaplines` and forgetting the group, or everything at the end of file. */
    method Keep(eof: bool, ghost rest: seq<Line>)
      requires lines != [] && (if eof then rest == [] else 0 < nl <= |lines| && rest == [lines[nl - 1]] + file)
      modifies this`lines, this`nl
      ensures Valid() && nl <= 1 && Rest() == rest
    {
      if eof {
        nl := 0;
      } else {
        lines := lines[0 := lines[nl - 1]][nl - 1 := lines[0]];
        nl := 1;
      }
    }
  }

  /** A group of lines like l has been read from a file that held `all`. */
  ghost predicate GroupRead(all: seq<Line>, l: Line, eof: bool, lines: seq<Line>, nl: nat, file: seq<Line>) {
    var n := Group(all, l);
    && nl == n + 1 && n <= |lines| && lines[..n] == all[..n] && (eof <==> n == |all|)
    && (!eof ==> nl <= |lines| && [lines[n]] + file == all[n..])
  }

  lemma {:induction false} EndsGroup(all: seq<Line>, l: Line, n: nat)
    requires n <= |all| && (forall i :: 0 <= i < n ==> Same(all[i], l)) && (n < |all| ==> !Same(all[n], l))
    ensures Group(all, l) == n
    decreases n
  {
    if n > 0 { EndsGroup(all[1..], l, n - 1); }
  }

  lemma {:induction false} ProductMore(xs: seq<Line>, x: Line, ys: seq<Line>)
    ensures Product(xs + [x], ys) == Product(xs, ys) + PairsWith(x, ys)
    decreases |xs|
  {
    if xs == [] {
      assert [] + [x] == [x] && Product([x][1..], ys) == [];
    } else {
      assert (xs + [x])[1..] == xs[1..] + [x];
      ProductMore(xs[1..], x, ys);
    }
  }

  /** `prspanjoin`. */
  method PrintPairs(spa: Span, spb: Span) returns (out: seq<Event>)
    requires 0 < spa.nl <= |spa.lines| + 1 && 0 < spb.nl <= |spb.lines| + 1
    ensures out == Product(spa.lines[..spa.nl - 1], spb.lines[..spb.nl - 1])
  {
    out := [];
    var i := 0;
    ghost var ys := spb.lines[..spb.nl - 1];
    while i < spa.nl - 1
      invariant i <= spa.nl - 1 && out == Product(spa.lines[..i], ys)
    {
      var j := 0;
      ghost var before := out;
      while j < spb.nl - 1
        invariant j <= spb.nl - 1 && out == before + PairsWith(spa.lines[i], ys)[..j]
      {
        out := out + [Pair(spa.lines[i], spb.lines[j])];
        j := j + 1;
      }
      ProductMore(spa.lines[..i], spa.lines[i], ys);
      assert spa.lines[..i + 1] == spa.lines[..i] + [spa.lines[i]];
      assert PairsWith(spa.lines[i], ys)[..j] == PairsWith(spa.lines[i], ys);
      i := i + 1;
    }
  }

  /** What is printed of a file whose rest has no match. */
  function All(f: Flags, second: bool, ls: seq<Line>): seq<Event> { if second then AllB(f, ls) else AllA(f, ls) }

  function One(second: bool, l: Line): Event { if second then OnlyB(l) else OnlyA(l) }

  /** Prints the rest of one file, the other being at its end. */
  method PrintRest(f: Flags, second: bool, sp: Span) returns (out: seq<Event>)
    requires sp.Valid() && sp.nl == 1 && (if second then f.unpairsb else f.unpairsa)
    modifies sp
    ensures sp.Valid() && out == All(f, second, old(sp.Rest()))
  {
    out := [];
    var more := true;
    ghost var todo := sp.Rest();
    while more
      invariant sp.Valid() && (more ==> sp.nl == 1)
      invariant All(f, second, old(sp.Rest())) == out + All(f, second, if more then sp.Rest() else [])
      decreases if more then 1 else 0, |sp.file|
    {
      ghost var ls := sp.Rest();
      assert ls[1..] == sp.file;
      ghost var printed := out;
      out := out + [One(second, sp.lines[0])];
      assert All(f, second, ls) == [One(second, sp.lines[0])] + All(f, second, sp.file);
      assert printed + All(f, second, ls) == out + All(f, second, sp.file);
      more := sp.Add(true);
      if more { assert sp.lines[..sp.nl] == [ls[1]] && sp.Rest() == ls[1..]; }
    }
  }

  /** `join`. */
  method JoinFiles(ord: Order, f: Flags, fa: seq<Line>, fb: seq<Line>) returns (out: seq<Event>)
    requires Total(ord)
    ensures out == Merge(ord, f, fa, fb)
  {
    out := [];
    var spa := new Span(fa);
    var spb := new Span(fb);
    var eofa, eofb := false, false;
    var more := spa.Add(true);
    more := spb.Add(true);
    Started(spa, fa);
    Started(spb, fb);
    ghost var all := Merge(ord, f, fa, fb);
    ghost var left := Merge(ord, f, spa.Rest(), spb.Rest());
    while spa.nl > 0 && spb.nl > 0
      invariant spa.Valid() && spb.Valid() && spa.nl <= 1 && spb.nl <= 1 && fresh(spa) && fresh(spb)
      invariant left == Merge(ord, f, spa.Rest(), spb.Rest()) && all == out + left
      decreases |spa.Rest()| + |spb.Rest()|
    {
      ghost var before := left;
      var printed := Turn(ord, f, spa, spb);
      left := Merge(ord, f, spa.Rest(), spb.Rest());
      Assoc(out, printed, left);
      out := out + printed;
    }
    assert left == [];
  }

  lemma Started(sp: Span, file: seq<Line>)
    requires sp.Valid()
    requires if file == [] then sp.nl == 0 else sp.lines[..sp.nl] == [file[0]] && sp.file == file[1..]
    ensures sp.nl <= 1 && sp.Rest() == file
  {
  }

  /** One turn of its loop. */
  method Turn(ord: Order, f: Flags, spa: Span, spb: Span) returns (out: seq<Event>)
    requires Total(ord) && spa != spb && spa.Valid() && spb.Valid() && spa.nl == 1 == spb.nl
    modifies spa, spb
    ensures spa.Valid() && spb.Valid() && spa.nl <= 1 && spb.nl <= 1
    ensures old(Merge(ord, f, spa.Rest(), spb.Rest())) == out + Merge(ord, f, spa.Rest(), spb.Rest())
    ensures |spa.Rest()| + |spb.Rest()| < old(|spa.Rest()| + |spb.Rest()|)
  {
    var cmp := Compare(ord, spa.lines[0], spb.lines[0]);
    if cmp < 0 {
      MergeLess(ord, f, spa.Rest(), spb.Rest());
      out := TurnAlone(f, false, spa, spb);
    } else if cmp > 0 {
      MergeMore(ord, f, spa.Rest(), spb.Rest());
      out := TurnAlone(f, true, spb, spa);
    } else {
      MergeSame(ord, f, spa.Rest(), spb.Rest());
      CompareSame(ord, spa.lines[0], spb.lines[0]);
      out := TurnSame(ord, f, spa, spb);
    }
  }

  lemma MergeLess(ord: Order, f: Flags, xs: seq<Line>, ys: seq<Line>)
    requires Total(ord) && xs != [] && ys != [] && Compare(ord, xs[0], ys[0]) < 0
    ensures Merge(ord, f, xs, ys) == AloneText(f, false, xs, ys) + if |xs| == 1 then [] else Merge(ord, f, xs[1..], ys)
  {
  }

  lemma MergeMore(ord: Order, f: Flags, xs: seq<Line>, ys: seq<Line>)
    requires Total(ord) && xs != [] && ys != [] && Compare(ord, xs[0], ys[0]) > 0
    ensures Merge(ord, f, xs, ys) == AloneText(f, true, ys, xs) + if |ys| == 1 then [] else Merge(ord, f, xs, ys[1..])
  {
  }

  /** What a line without a match prints, with all of the other file if it was the
      last one. */
  function AloneText(f: Flags, second: bool, xs: seq<Line>, ys: seq<Line>): seq<Event>
    requires xs != []
  {
    (if second then Only(f.unpairsb, OnlyB(xs[0])) else Only(f.unpairsa, OnlyA(xs[0])))
    + if |xs| == 1 then All(f, !second, ys) else []
  }

  lemma {:induction false} AllOff(f: Flags, ls: seq<Line>)
    ensures (!f.unpairsa ==> AllA(f, ls) == []) && (!f.unpairsb ==> AllB(f, ls) == [])
    decreases |ls|
  {
    if ls != [] { AllOff(f, ls[1..]); }
  }

  /** A turn in which the line of sp has no match; the branches for the two files
      differ in the names only. */
  method TurnAlone(f: Flags, second: bool, sp: Span, other: Span) returns (out: seq<Event>)
    requires sp != other && sp.Valid() && other.Valid() && sp.nl == 1 == other.nl
    modifies sp, other
    ensures sp.Valid() && other.Valid() && sp.nl <= 1 && other.nl <= 1
    ensures out == AloneText(f, second, old(sp.Rest()), old(other.Rest()))
    ensures sp.Rest() == old(sp.Rest())[1..]
    ensures other.Rest() == if |old(sp.Rest())| == 1 then [] else old(other.Rest())
  {
    ghost var xs, ys := sp.Rest(), other.Rest();
    out := if (if second then f.unpairsb else f.unpairsa) then [One(second, sp.lines[0])] else [];
    assert xs[0] == sp.lines[0] && xs[1..] == sp.file;
    var more := sp.Add(true);
    if !more {
      AllOff(f, ys);
      if if second then f.unpairsa else f.unpairsb {
        var rest := PrintRest(f, !second, other);
        out := out + rest;
      }
      sp.Keep(true, []);
      other.Keep(true, []);
    } else {
      Started(sp, xs[1..]);
    }
  }

  /** A turn with two groups. */
  method TurnSame(ord: Order, f: Flags, spa: Span, spb: Span) returns (out: seq<Event>)
    requires Total(ord) && spa != spb && spa.Valid() && spb.Valid() && spa.nl == 1 == spb.nl
    requires Same(spa.lines[0], spb.lines[0])
    modifies spa, spb
    ensures spa.Valid() && spb.Valid() && spa.nl <= 1 && spb.nl <= 1
    ensures var xs, ys := old(spa.Rest()), old(spb.Rest());
            var m, n := Group(xs, ys[0]), Group(ys, xs[0]);
            && out == (if f.pairs then Product(xs[..m], ys[..n]) else [])
            && spa.Rest() == xs[m..] && spb.Rest() == ys[n..]
  {
    out := [];
    ghost var xs, ys := spa.Rest(), spb.Rest();
    var eofa, eofb := ReadGroups(ord, spa, spb);
    GroupLeft(xs, ys[0], eofa, spa.lines, spa.nl, spa.file);
    GroupLeft(ys, xs[0], eofb, spb.lines, spb.nl, spb.file);
    if f.pairs { out := PrintPairs(spa, spb); }
    spa.Keep(eofa, xs[Group(xs, ys[0])..]);
    spb.Keep(eofb, ys[Group(ys, xs[0])..]);
  }

  lemma GroupLeft(all: seq<Line>, l: Line, eof: bool, lines: seq<Line>, nl: nat, file: seq<Line>)
    requires GroupRead(all, l, eof, lines, nl, file)
    ensures 0 < nl <= |lines| + 1 && lines[..nl - 1] == all[..Group(all, l)]
    ensures if eof then all[Group(all, l)..] == [] else nl <= |lines| && all[Group(all, l)..] == [lines[nl - 1]] + file
  {
  }

  /** All consecutive matching lines of both files. */
  method ReadGroups(ord: Order, spa: Span, spb: Span) returns (eofa: bool, eofb: bool)
    requires Total(ord) && spa != spb && spa.Valid() && spb.Valid() && spa.nl == 1 == spb.nl
    requires Same(spa.lines[0], spb.lines[0])
    modifies spa, spb
    ensures spa.lines != [] && GroupRead(old(spa.Rest()), old(spb.lines[0]), eofa, spa.lines, spa.nl, spa.file)
    ensures spb.lines != [] && GroupRead(old(spb.Rest()), old(spa.lines[0]), eofb, spb.lines, spb.nl, spb.file)
  {
    ghost var xs := spa.Rest();
    eofa := spa.ReadGroup(ord, spb.lines[0], false);
    GroupHeld(xs, spb.lines[0], eofa, spa.lines, spa.nl, spa.file);
    eofb := spb.ReadGroup(ord, spa.lines[0], true);
  }

  lemma GroupHeld(all: seq<Line>, l: Line, eof: bool, lines: seq<Line>, nl: nat, file: seq<Line>)
    requires lines != [] && all != [] && Same(all[0], l) && GroupRead(all, l, eof, lines, nl, file)
    ensures lines[0] == all[0]
  {
    assert lines[..Group(all, l)][0] == all[..Group(all, l)][0];
  }

  lemma MergeSame(ord: Order, f: Flags, xs: seq<Line>, ys: seq<Line>)
    requires Total(ord) && xs != [] && ys != [] && Compare(ord, xs[0], ys[0]) == 0
    ensures var m, n := Group(xs, ys[0]), Group(ys, xs[0]);
            && m > 0 && n > 0
            && Merge(ord, f, xs, ys)
            == (if f.pairs then Product(xs[..m], ys[..n]) else []) + Merge(ord, f, xs[m..], ys[n..])
  {
    CompareSame(ord, xs[0], ys[0]);
  }
}

/** The merge with the comparison that the source makes of fields, and for which
    keys and separators it joins files that are sorted by key. */
module JoinBytes {
  import opened Basics
  import opened Join
  import opened JoinKeys
  import SO = StringOrder

  /** A line as it is split: its join field with what follows, and its text. */
  datatype RawLine = RawLine(field: Option<Field>, text: string)

  /** What a line is to the merge by key. */
  function Plain(l: RawLine): Line {
    Line(match l.field case Some(f) => Some(f.key) case None => None, l.text)
  }

  function Plains(ls: seq<RawLine>): (ps: seq<Line>)
    ensures |ps| == |ls| && forall i :: 0 <= i < |ls| ==> ps[i] == Plain(ls[i])
  {
    seq(|ls|, i requires 0 <= i < |ls| => Plain(ls[i]))
  }

  /** `jlinecmp`. */
  function CompareRaw(a: RawLine, b: RawLine): int {
    if a.field.None? then (if b.field.None? then FIELD_ERROR else -1)
    else if b.field.None? then 1
    else CompareFields(a.field.value, b.field.value)
  }

  /** How many lines at the start of the first file compare equal to l, and how many
      of the second. */
  function GroupA(ls: seq<RawLine>, l: RawLine): (n: nat)
    ensures n <= |ls|
  {
    if ls == [] || CompareRaw(ls[0], l) != 0 then 0 else 1 + GroupA(ls[1..], l)
  }

  function GroupB(l: RawLine, ls: seq<RawLine>): (n: nat)
    ensures n <= |ls|
  {
    if ls == [] || CompareRaw(l, ls[0]) != 0 then 0 else 1 + GroupB(l, ls[1..])
  }

  /** What `join` prints. */
  function MergeRaw(f: Flags, xs: seq<RawLine>, ys: seq<RawLine>): seq<Event>
    decreases |xs| + |ys|
  {
    if xs == [] || ys == [] then []
    else
      var c := CompareRaw(xs[0], ys[0]);
      if c < 0 then
        Only(f.unpairsa, OnlyA(Plain(xs[0]))) + if |xs| == 1 then AllB(f, Plains(ys)) else MergeRaw(f, xs[1..], ys)
      else if c > 0 then
        Only(f.unpairsb, OnlyB(Plain(ys[0]))) + if |ys| == 1 then AllA(f, Plains(xs)) else MergeRaw(f, xs, ys[1..])
      else
        var m, n := GroupA(xs, ys[0]), GroupB(xs[0], ys);
        (if f.pairs then Product(Plains(xs[..m]), Plains(ys[..n])) else []) + MergeRaw(f, xs[m..], ys[n..])
  }

  /** Lines of a file with these keys and separators. */
  ghost predicate File(ls: seq<RawLine>, keys: set<string>, seps: set<string>) {
    forall i {:trigger ls[i]} :: 0 <= i < |ls| && ls[i].field.Some? ==>
      Fits(ls[i].field.value, seps) && ls[i].field.value.key in keys
  }

  // ------------------------------------------------- separated keys suffice

  lemma CompareIsByKey(a: RawLine, b: RawLine, keys: set<string>, seps: set<string>)
    requires ComparesBy(SO.Cmp, keys, seps) && File([a], keys, seps) && File([b], keys, seps)
    ensures SameSign(CompareRaw(a, b), Compare(SO.Cmp, Plain(a), Plain(b)))
    ensures CompareRaw(a, b) == 0 <==> Same(Plain(a), Plain(b))
  {
    assert [a][0] == a && [b][0] == b;
    if a.field.Some? && b.field.Some? { SO.CmpZero(a.field.value.key, b.field.value.key); }
  }

  lemma FileOf(ls: seq<RawLine>, i: nat, keys: set<string>, seps: set<string>)
    requires File(ls, keys, seps) && i < |ls|
    ensures File([ls[i]], keys, seps)
  {
  }

  lemma PlainsParts(ls: seq<RawLine>, n: nat)
    requires n <= |ls|
    ensures Plains(ls[..n]) == Plains(ls)[..n] && Plains(ls[n..]) == Plains(ls)[n..]
  {
  }

  lemma {:induction false} GroupAIsGroup(ls: seq<RawLine>, l: RawLine, keys: set<string>, seps: set<string>)
    requires ComparesBy(SO.Cmp, keys, seps) && File(ls, keys, seps) && File([l], keys, seps)
    ensures GroupA(ls, l) == Group(Plains(ls), Plain(l))
    decreases |ls|
  {
    if ls != [] {
      FileOf(ls, 0, keys, seps);
      CompareIsByKey(ls[0], l, keys, seps);
      PlainsParts(ls, 1);
      GroupAIsGroup(ls[1..], l, keys, seps);
    }
  }

  lemma {:induction false} GroupBIsGroup(l: RawLine, ls: seq<RawLine>, keys: set<string>, seps: set<string>)
    requires ComparesBy(SO.Cmp, keys, seps) && File(ls, keys, seps) && File([l], keys, seps)
    ensures GroupB(l, ls) == Group(Plains(ls), Plain(l))
    decreases |ls|
  {
    if ls != [] {
      FileOf(ls, 0, keys, seps);
      CompareIsByKey(l, ls[0], keys, seps);
      PlainsParts(ls, 1);
      GroupBIsGroup(l, ls[1..], keys, seps);
    }
  }

  /** With separated keys the merge is the merge by key, in the order of the bytes of
      the keys: all that is proved of that one holds. */
  lemma {:induction false} MergeIsByKey(f: Flags, xs: seq<RawLine>, ys: seq<RawLine>, keys: set<string>,
                                        seps: set<string>)
    requires Separated(keys, seps) && File(xs, keys, seps) && File(ys, keys, seps)
    ensures Total(SO.Cmp) && MergeRaw(f, xs, ys) == Merge(SO.Cmp, f, Plains(xs), Plains(ys))
    decreases |xs| + |ys|
  {
    KeysTotal();
    if xs != [] && ys != [] {
      SeparatedByKey(keys, seps);
      FileOf(xs, 0, keys, seps);
      FileOf(ys, 0, keys, seps);
      CompareIsByKey(xs[0], ys[0], keys, seps);
      var c := CompareRaw(xs[0], ys[0]);
      if c < 0 {
        PlainsParts(xs, 1);
        if |xs| > 1 { MergeIsByKey(f, xs[1..], ys, keys, seps); }
      } else if c > 0 {
        PlainsParts(ys, 1);
        if |ys| > 1 { MergeIsByKey(f, xs, ys[1..], keys, seps); }
      } else {
        var m, n := GroupA(xs, ys[0]), GroupB(xs[0], ys);
        GroupAIsGroup(xs, ys[0], keys, seps);
        GroupBIsGroup(xs[0], ys, keys, seps);
        PlainsParts(xs, m);
        PlainsParts(ys, n);
        MergeIsByKey(f, xs[m..], ys[n..], keys, seps);
      }
    }
  }

  // ------------------------------------------------- and nothing less does

  const PAIRS := Flags(true, false, false)

  /** All files with these keys, sorted by key, are joined. */
  ghost predicate Joins(keys: set<string>, seps: set<string>) {
    forall xs, ys :: File(xs, keys, seps) && File(ys, keys, seps)
                     && Sorted(SO.Cmp, Plains(xs)) && Sorted(SO.Cmp, Plains(ys)) ==>
                       PairsOf(MergeRaw(PAIRS, xs, ys)) == Inner(Plains(xs), Plains(ys))
  }

  lemma InnerTwo(a: Line, b: Line, c: Line)
    requires !Same(a, c) && Same(b, c)
    ensures Inner([a, b], [c]) == [Pair(b, c)]
  {
    assert [a, b][1..] == [b] && [b][1..] == [] && [c][1..] == [];
    assert Row(a, [c]) == [] && Row(b, [c]) == [Pair(b, c)] && Inner([b], [c]) == [Pair(b, c)];
  }

  lemma {:induction false} NoneAlone(ls: seq<Line>)
    ensures AllA(PAIRS, ls) == []
    decreases |ls|
  {
    if ls != [] { NoneAlone(ls[1..]); }
  }

  /** A second file of one line that seems to come first. */
  lemma Dropped(xs: seq<RawLine>, c: RawLine)
    requires xs != [] && CompareRaw(xs[0], c) > 0
    ensures MergeRaw(PAIRS, xs, [c]) == []
  {
    NoneAlone(Plains(xs));
  }

  /** When the first lines are taken to match they are printed. */
  lemma FirstPaired(xs: seq<RawLine>, ys: seq<RawLine>)
    requires xs != [] && ys != [] && CompareRaw(xs[0], ys[0]) == 0
    ensures PairsOf(MergeRaw(PAIRS, xs, ys)) != [] &&
            PairsOf(MergeRaw(PAIRS, xs, ys))[0] == Pair(Plain(xs[0]), Plain(ys[0]))
  {
    var m, n := GroupA(xs, ys[0]), GroupB(xs[0], ys);
    var ps, qs := Plains(xs[..m]), Plains(ys[..n]);
    var es := Product(ps, qs) + MergeRaw(PAIRS, xs[m..], ys[n..]);
    assert Product(ps, qs)[0] == PairsWith(ps[0], qs)[0] == Pair(Plain(xs[0]), Plain(ys[0]));
    assert es[0] == Product(ps, qs)[0] && MergeRaw(PAIRS, xs, ys) == es;
  }

  lemma PlainsTwo(a: RawLine, b: RawLine)
    ensures Plains([a, b]) == [Plain(a), Plain(b)]
  {
  }

  lemma PlainsOne(a: RawLine)
    ensures Plains([a]) == [Plain(a)]
  {
  }

  lemma SortedTwo(x: string, y: string, a: Line, b: Line)
    requires x < y && a.key == Some(x) && b.key == Some(y)
    ensures Sorted(SO.Cmp, [a, b])
  {
    CmpPrefix(x, y);
  }

  ghost predicate HasKey(l: RawLine, key: string) { l.field.Some? && l.field.value.key == key }

  /** A first file with the keys x, in the middle of its line, and y, and a second
      with y: their pair is lost, or comes after a pair of x and y. */
  lemma Misjoined(x: string, y: string, sep: string, a: RawLine, b: RawLine, c: RawLine)
    requires x < y && !Under(sep, x, y) && !Inside(sep, y)
    requires HasKey(a, x) && sep <= a.field.value.after && HasKey(b, y) && HasKey(c, y)
    ensures Sorted(SO.Cmp, Plains([a, b])) && Sorted(SO.Cmp, Plains([c]))
    ensures PairsOf(MergeRaw(PAIRS, [a, b], [c])) != Inner(Plains([a, b]), Plains([c])) == [Pair(Plain(b), Plain(c))]
    ensures Memcmp(sep, y[|x|..], |y| - |x|) > 0 ==> MergeRaw(PAIRS, [a, b], [c]) == []
  {
    SeparatorDecides(a.field.value, c.field.value, sep);
    PlainsTwo(a, b);
    PlainsOne(c);
    SortedTwo(x, y, Plain(a), Plain(b));
    InnerTwo(Plain(a), Plain(b), Plain(c));
    assert !Same(Plain(a), Plain(c));
    if CompareRaw(a, c) > 0 { Dropped([a, b], c); } else { FirstPaired([a, b], [c]); }
  }

  /** Files sorted by key are joined whatever they are if and only if their keys are
      separated: no key is the start of another that goes on with what is not above
      a separator. */
  lemma JoinsIff(keys: set<string>, seps: set<string>)
    requires Clean(keys, seps)
    ensures Joins(keys, seps) <==> Separated(keys, seps)
  {
    if Separated(keys, seps) {
      SeparatedJoins(keys, seps);
    } else {
      var x, y, sep :| x in keys && y in keys && x < y && sep in seps && !Under(sep, x, y);
      UnseparatedMisjoins(keys, seps, x, y, sep);
    }
  }

  lemma SeparatedJoins(keys: set<string>, seps: set<string>)
    requires Separated(keys, seps)
    ensures Joins(keys, seps)
  {
    forall xs, ys | File(xs, keys, seps) && File(ys, keys, seps)
                    && Sorted(SO.Cmp, Plains(xs)) && Sorted(SO.Cmp, Plains(ys))
      ensures PairsOf(MergeRaw(PAIRS, xs, ys)) == Inner(Plains(xs), Plains(ys))
    {
      MergeIsByKey(PAIRS, xs, ys, keys, seps);
      MergeIsInner(SO.Cmp, PAIRS, Plains(xs), Plains(ys));
    }
  }

  lemma UnseparatedMisjoins(keys: set<string>, seps: set<string>, x: string, y: string, sep: string)
    requires Clean(keys, seps) && x in keys && y in keys && x < y && sep in seps && !Under(sep, x, y)
    ensures !Joins(keys, seps)
  {
    var a := RawLine(Some(Field(x, sep + "\0")), "");
    var b := RawLine(Some(Field(y, "\0")), "");
    TwoWays(x, y, sep, seps);
    StartsWith(sep, "\0");
    Misjoined(x, y, sep, a, b, b);
    FileTwo(a, b, keys, seps);
    assert Inner(Plains([a, b]), Plains([b])) != PairsOf(MergeRaw(PAIRS, [a, b], [b]));
  }

  lemma FileTwo(a: RawLine, b: RawLine, keys: set<string>, seps: set<string>)
    requires a.field.Some? && Fits(a.field.value, seps) && a.field.value.key in keys
    requires b.field.Some? && Fits(b.field.value, seps) && b.field.value.key in keys
    ensures File([a, b], keys, seps) && File([b], keys, seps)
  {
  }

  lemma StartsWith(s: string, t: string)
    ensures s <= s + t
  {
  }

  /** `join -t :` on the lines `a:x` and `a1:y`, and `a1:z`, prints nothing. */
  lemma ColonMisjoins()
    ensures var a, b := RawLine(Some(Field("a", ":x\0")), "a:x"), RawLine(Some(Field("a1", ":y\0")), "a1:y");
            var c := RawLine(Some(Field("a1", ":z\0")), "a1:z");
            && Sorted(SO.Cmp, Plains([a, b])) && Sorted(SO.Cmp, Plains([c]))
            && MergeRaw(PAIRS, [a, b], [c]) == [] && Inner(Plains([a, b]), Plains([c])) == [Pair(Plain(b), Plain(c))]
  {
    var a, b := RawLine(Some(Field("a", ":x\0")), "a:x"), RawLine(Some(Field("a1", ":y\0")), "a1:y");
    var c := RawLine(Some(Field("a1", ":z\0")), "a1:z");
    var x, y := "a", "a1";
    assert y == x + "1" && y[|x|..] == "1" && ":x\0"[..1] == ":";
    forall i | 0 <= i <= 2 ensures !(":" <= y[i..]) {
      assert i < 2 ==> y[i..][0] == y[i];
    }
    assert Memcmp(":", "1", 1) > 0;
    Misjoined(x, y, ":", a, b, c);
  }
}

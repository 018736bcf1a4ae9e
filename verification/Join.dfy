/** join: two sorted files read side by side, a group of lines with the same key at
    a time. */
module Join {
  import opened Basics

  /** A line and its join field, if it has that many fields. */
  datatype Line = Line(key: Option<string>, text: string)

  datatype Event = Pair(a: Line, b: Line) | OnlyA(l: Line) | OnlyB(l: Line)

  /** -v turns pairs off; -a and -v turn the lines of a file without a match on. */
  datatype Flags = Flags(pairs: bool, unpairsa: bool, unpairsb: bool)

  // ------------------------------------------------------------------ keys

  /** The comparison of two keys, of which only the sign is used. */
  type Order = (string, string) -> int

  ghost predicate Two(ord: Order, x: string, y: string) {
    (ord(x, y) == 0 <==> x == y) && (ord(x, y) < 0 <==> ord(y, x) > 0)
  }

  ghost predicate Three(ord: Order, x: string, y: string, z: string) {
    ord(x, y) < 0 && ord(y, z) <= 0 ==> ord(x, z) < 0
  }

  /** A total order. */
  ghost predicate Total(ord: Order) {
    && (forall x, y {:trigger Two(ord, x, y)} :: Two(ord, x, y))
    && (forall x, y, z {:trigger Three(ord, x, y, z)} :: Three(ord, x, y, z))
  }

  const FIELD_ERROR := -2

  /** `jlinecmp`: lines without the field come first; two of them are an error,
      which is a negative number too. */
  function Compare(ord: Order, a: Line, b: Line): int {
    if a.key.None? then (if b.key.None? then FIELD_ERROR else -1)
    else if b.key.None? then 1
    else ord(a.key.value, b.key.value)
  }

  /** Lines to be paired. */
  predicate Same(a: Line, b: Line) { a.key.Some? && a.key == b.key }

  lemma CompareSame(ord: Order, a: Line, b: Line)
    requires Total(ord)
    ensures Compare(ord, a, b) == 0 <==> Same(a, b)
    ensures Compare(ord, a, b) > 0 ==> Compare(ord, b, a) < 0
    ensures Compare(ord, b, a) < 0 && b.key != a.key ==> Compare(ord, a, b) > 0
  {
    if a.key.Some? && b.key.Some? { assert Two(ord, a.key.value, b.key.value) && Two(ord, b.key.value, a.key.value); }
  }

  /** Before, and not with the same key. */
  predicate Below(ord: Order, a: Line, b: Line) { Compare(ord, a, b) < 0 && a.key != b.key }

  predicate AtMost(ord: Order, a: Line, b: Line) { a.key == b.key || Below(ord, a, b) }

  lemma BelowTransitive(ord: Order, a: Line, b: Line, c: Line)
    requires Total(ord) && Below(ord, a, b) && AtMost(ord, b, c)
    ensures Below(ord, a, c)
  {
    if a.key.Some? && b.key.Some? && c.key.Some? {
      assert Three(ord, a.key.value, b.key.value, c.key.value) && Two(ord, b.key.value, c.key.value);
      assert Two(ord, a.key.value, c.key.value);
    }
  }

  lemma BelowOneWay(ord: Order, a: Line, b: Line)
    requires Total(ord) && Below(ord, a, b)
    ensures !AtMost(ord, b, a)
  {
    if a.key.Some? && b.key.Some? { assert Two(ord, a.key.value, b.key.value) && Two(ord, b.key.value, a.key.value); }
  }

  /** By key, lines without it first. */
  predicate Sorted(ord: Order, ls: seq<Line>) {
    forall i, j :: 0 <= i < j < |ls| ==> AtMost(ord, ls[i], ls[j])
  }

  // ---------------------------------------------------------------- groups

  /** How many lines at the start have the key of l. */
  function Group(ls: seq<Line>, l: Line): (n: nat)
    ensures n <= |ls| && (n < |ls| ==> !Same(ls[n], l))
    ensures forall i :: 0 <= i < n ==> Same(ls[i], l)
  {
    if ls == [] || !Same(ls[0], l) then 0 else 1 + Group(ls[1..], l)
  }

  function PairsWith(a: Line, bs: seq<Line>): (es: seq<Event>)
    ensures |es| == |bs| && forall j :: 0 <= j < |bs| ==> es[j] == Pair(a, bs[j])
  {
    seq(|bs|, j requires 0 <= j < |bs| => Pair(a, bs[j]))
  }

  /** `prspanjoin`: every line of one group with every line of the other. */
  function Product(xs: seq<Line>, bs: seq<Line>): seq<Event> {
    if xs == [] then [] else PairsWith(xs[0], bs) + Product(xs[1..], bs)
  }

  function Only(on: bool, e: Event): seq<Event> { if on then [e] else [] }

  function AllA(f: Flags, ls: seq<Line>): seq<Event> {
    if ls == [] then [] else Only(f.unpairsa, OnlyA(ls[0])) + AllA(f, ls[1..])
  }

  function AllB(f: Flags, ls: seq<Line>): seq<Event> {
    if ls == [] then [] else Only(f.unpairsb, OnlyB(ls[0])) + AllB(f, ls[1..])
  }

  // ------------------------------------------------------------- the merge

  /** What `join` prints when the lines xs and ys are still to come. */
  function Merge(ord: Order, f: Flags, xs: seq<Line>, ys: seq<Line>): seq<Event>
    requires Total(ord)
    decreases |xs| + |ys|
  {
    if xs == [] || ys == [] then []
    else
      var c := Compare(ord, xs[0], ys[0]);
      if c < 0 then
        Only(f.unpairsa, OnlyA(xs[0])) + if |xs| == 1 then AllB(f, ys) else Merge(ord, f, xs[1..], ys)
      else if c > 0 then
        Only(f.unpairsb, OnlyB(ys[0])) + if |ys| == 1 then AllA(f, xs) else Merge(ord, f, xs, ys[1..])
      else
        CompareSame(ord, xs[0], ys[0]);
        var m, n := Group(xs, ys[0]), Group(ys, xs[0]);
        (if f.pairs then Product(xs[..m], ys[..n]) else []) + Merge(ord, f, xs[m..], ys[n..])
  }

  // --------------------------------------------- the join as a nested loop

  function Row(a: Line, ys: seq<Line>): seq<Event> {
    if ys == [] then [] else (if Same(a, ys[0]) then [Pair(a, ys[0])] else []) + Row(a, ys[1..])
  }

  /** Every pair of lines with the same key, in the order of two nested loops. */
  function Inner(xs: seq<Line>, ys: seq<Line>): seq<Event> {
    if xs == [] then [] else Row(xs[0], ys) + Inner(xs[1..], ys)
  }

  function PairsOf(es: seq<Event>): seq<Event> {
    if es == [] then [] else (if es[0].Pair? then [es[0]] else []) + PairsOf(es[1..])
  }

  lemma {:induction false} PairsOfAppend(a: seq<Event>, b: seq<Event>)
    ensures PairsOf(a + b) == PairsOf(a) + PairsOf(b)
    decreases |a|
  {
    if a == [] {
      assert a + b == b;
    } else {
      assert (a + b)[1..] == a[1..] + b && (a + b)[0] == a[0];
      PairsOfAppend(a[1..], b);
      Assoc(if a[0].Pair? then [a[0]] else [], PairsOf(a[1..]), PairsOf(b));
    }
  }

  lemma {:induction false} PairsOfPairs(es: seq<Event>)
    requires forall i :: 0 <= i < |es| ==> es[i].Pair?
    ensures PairsOf(es) == es
    decreases |es|
  {
    if es != [] {
      PairsOfPairs(es[1..]);
      assert [es[0]] + es[1..] == es;
    }
  }

  lemma {:induction false} AllNoPairs(f: Flags, ls: seq<Line>)
    ensures PairsOf(AllA(f, ls)) == [] && PairsOf(AllB(f, ls)) == []
    decreases |ls|
  {
    if ls != [] {
      AllNoPairs(f, ls[1..]);
      PairsOfAppend(Only(f.unpairsa, OnlyA(ls[0])), AllA(f, ls[1..]));
      PairsOfAppend(Only(f.unpairsb, OnlyB(ls[0])), AllB(f, ls[1..]));
    }
  }

  lemma {:induction false} ProductPairs(xs: seq<Line>, ys: seq<Line>)
    ensures forall i :: 0 <= i < |Product(xs, ys)| ==> Product(xs, ys)[i].Pair?
    decreases |xs|
  {
    if xs != [] { ProductPairs(xs[1..], ys); }
  }

  lemma {:induction false} RowNone(a: Line, ys: seq<Line>)
    requires forall j :: 0 <= j < |ys| ==> !Same(a, ys[j])
    ensures Row(a, ys) == []
    decreases |ys|
  {
    if ys != [] { RowNone(a, ys[1..]); }
  }

  lemma {:induction false} RowAll(a: Line, ys: seq<Line>)
    requires forall j :: 0 <= j < |ys| ==> Same(a, ys[j])
    ensures Row(a, ys) == PairsWith(a, ys)
    decreases |ys|
  {
    if ys != [] {
      RowAll(a, ys[1..]);
      assert [Pair(a, ys[0])] + PairsWith(a, ys[1..]) == PairsWith(a, ys);
    }
  }

  lemma {:induction false} RowAppend(a: Line, ys: seq<Line>, zs: seq<Line>)
    ensures Row(a, ys + zs) == Row(a, ys) + Row(a, zs)
    decreases |ys|
  {
    if ys == [] {
      assert ys + zs == zs;
    } else {
      assert (ys + zs)[1..] == ys[1..] + zs && (ys + zs)[0] == ys[0];
      RowAppend(a, ys[1..], zs);
      Assoc(if Same(a, ys[0]) then [Pair(a, ys[0])] else [], Row(a, ys[1..]), Row(a, zs));
    }
  }

  lemma {:induction false} InnerAppend(xs: seq<Line>, zs: seq<Line>, ys: seq<Line>)
    ensures Inner(xs + zs, ys) == Inner(xs, ys) + Inner(zs, ys)
    decreases |xs|
  {
    if xs == [] {
      assert xs + zs == zs;
    } else {
      assert (xs + zs)[1..] == xs[1..] + zs && (xs + zs)[0] == xs[0];
      InnerAppend(xs[1..], zs, ys);
      Assoc(Row(xs[0], ys), Inner(xs[1..], ys), Inner(zs, ys));
    }
  }

  lemma {:induction false} InnerNone(xs: seq<Line>, ys: seq<Line>)
    requires forall i, j :: 0 <= i < |xs| && 0 <= j < |ys| ==> !Same(xs[i], ys[j])
    ensures Inner(xs, ys) == []
    decreases |xs|
  {
    if xs != [] {
      RowNone(xs[0], ys);
      InnerNone(xs[1..], ys);
    }
  }

  /** Lines that match nothing can be left out on either side. */
  lemma {:induction false} InnerDrop(xs: seq<Line>, ys: seq<Line>, zs: seq<Line>)
    requires forall i, j :: 0 <= i < |xs| && 0 <= j < |ys| ==> !Same(xs[i], ys[j])
    ensures Inner(xs, ys + zs) == Inner(xs, zs)
    decreases |xs|
  {
    if xs != [] {
      RowDrop(xs[0], ys, zs);
      InnerDrop(xs[1..], ys, zs);
    }
  }

  lemma RowDrop(a: Line, ys: seq<Line>, zs: seq<Line>)
    requires forall j :: 0 <= j < |ys| ==> !Same(a, ys[j])
    ensures Row(a, ys + zs) == Row(a, zs)
  {
    RowAppend(a, ys, zs);
    RowNone(a, ys);
    assert [] + Row(a, zs) == Row(a, zs);
  }

  /** A group against a file that starts with the matching group. */
  lemma {:induction false} InnerGroup(xs: seq<Line>, ys: seq<Line>, zs: seq<Line>)
    requires forall i, j :: 0 <= i < |xs| && 0 <= j < |ys| ==> Same(xs[i], ys[j])
    requires forall i, j :: 0 <= i < |xs| && 0 <= j < |zs| ==> !Same(xs[i], zs[j])
    ensures Inner(xs, ys + zs) == Product(xs, ys)
    decreases |xs|
  {
    if xs != [] {
      RowAppend(xs[0], ys, zs);
      RowAll(xs[0], ys);
      RowNone(xs[0], zs);
      assert PairsWith(xs[0], ys) + [] == PairsWith(xs[0], ys);
      InnerGroup(xs[1..], ys, zs);
    }
  }

  // ---------------------------------------------------- at a turn of the loop

  lemma FirstAtMost(ord: Order, ls: seq<Line>, j: nat)
    requires Sorted(ord, ls) && j < |ls|
    ensures AtMost(ord, ls[0], ls[j])
  {
  }

  /** The first line of xs comes first: it has no match. */
  lemma FrontLess(ord: Order, xs: seq<Line>, ys: seq<Line>)
    requires Total(ord) && Sorted(ord, ys) && xs != [] && ys != [] && Compare(ord, xs[0], ys[0]) < 0
    ensures forall j :: 0 <= j < |ys| ==> !Same(xs[0], ys[j])
  {
    forall j | 0 <= j < |ys| ensures !Same(xs[0], ys[j]) {
      if Same(xs[0], ys[j]) {
        FirstAtMost(ord, ys, j);
        CompareSame(ord, xs[0], ys[0]);
        BelowOneWay(ord, xs[0], ys[0]);
      }
    }
  }

  lemma FrontMore(ord: Order, xs: seq<Line>, ys: seq<Line>)
    requires Total(ord) && Sorted(ord, xs) && xs != [] && ys != [] && Compare(ord, xs[0], ys[0]) > 0
    ensures forall i :: 0 <= i < |xs| ==> !Same(xs[i], ys[0])
  {
    CompareSame(ord, xs[0], ys[0]);
    FrontLess(ord, ys, xs);
    forall i | 0 <= i < |xs| ensures !Same(xs[i], ys[0]) { assert !Same(ys[0], xs[i]); }
  }

  /** What follows a group is past it. */
  lemma GroupEnds(ord: Order, ls: seq<Line>, l: Line)
    requires Total(ord) && Sorted(ord, ls) && ls != [] && Same(ls[0], l)
    ensures Group(ls, l) > 0
    ensures forall j :: Group(ls, l) <= j < |ls| ==> Below(ord, l, ls[j]) && !Same(l, ls[j])
  {
    var n := Group(ls, l);
    forall j | n <= j < |ls| ensures Below(ord, l, ls[j]) && !Same(l, ls[j]) {
      assert AtMost(ord, ls[0], ls[n]) && Below(ord, l, ls[n]);
      if j > n {
        assert AtMost(ord, ls[n], ls[j]);
        BelowTransitive(ord, l, ls[n], ls[j]);
      }
    }
  }

  lemma GroupKeys(ord: Order, xs: seq<Line>, l: Line)
    requires Total(ord) && Sorted(ord, xs) && xs != [] && Same(xs[0], l)
    ensures Group(xs, l) > 0
    ensures forall i :: 0 <= i < Group(xs, l) ==> xs[i].key == l.key
    ensures forall i :: Group(xs, l) <= i < |xs| ==> xs[i].key != l.key && Below(ord, l, xs[i])
  {
    GroupEnds(ord, xs, l);
    forall i | 0 <= i < Group(xs, l) ensures xs[i].key == l.key { assert Same(xs[i], l); }
    forall i | Group(xs, l) <= i < |xs| ensures xs[i].key != l.key { assert !Same(l, xs[i]); }
  }

  /** Lines of the one kind match all of the other, or none. */
  lemma AllSame(xs: seq<Line>, ys: seq<Line>, l: Line)
    requires l.key.Some? && (forall i :: 0 <= i < |xs| ==> xs[i].key == l.key) &&
             (forall j :: 0 <= j < |ys| ==> ys[j].key == l.key)
    ensures forall i, j :: 0 <= i < |xs| && 0 <= j < |ys| ==> Same(xs[i], ys[j])
  {
  }

  lemma NoneSame(xs: seq<Line>, ys: seq<Line>, l: Line)
    requires || ((forall i :: 0 <= i < |xs| ==> xs[i].key == l.key) &&
                 (forall j :: 0 <= j < |ys| ==> ys[j].key != l.key))
             || ((forall i :: 0 <= i < |xs| ==> xs[i].key != l.key) &&
                 (forall j :: 0 <= j < |ys| ==> ys[j].key == l.key))
    ensures forall i, j :: 0 <= i < |xs| && 0 <= j < |ys| ==> !Same(xs[i], ys[j])
  {
  }

  lemma SortedTail(ord: Order, ls: seq<Line>, n: nat)
    requires Sorted(ord, ls) && n <= |ls|
    ensures Sorted(ord, ls[n..])
  {
  }

  lemma Halves(ls: seq<Line>, n: nat)
    requires n <= |ls|
    ensures ls == ls[..n] + ls[n..]
  {
  }

  /** A group and what follows it. */
  lemma GroupApart(ord: Order, xs: seq<Line>, l: Line, xg: seq<Line>, xr: seq<Line>)
    requires Total(ord) && Sorted(ord, xs) && xs != [] && Same(xs[0], l) && xs == xg + xr && |xg| == Group(xs, l)
    ensures xg != [] && forall i :: 0 <= i < |xg| ==> xg[i].key == l.key
    ensures forall i :: 0 <= i < |xr| ==> xr[i].key != l.key && Below(ord, l, xr[i])
  {
    GroupKeys(ord, xs, l);
    forall i | 0 <= i < |xg| ensures xg[i].key == l.key { assert xg[i] == xs[i]; }
    forall i | 0 <= i < |xr| ensures xr[i].key != l.key && Below(ord, l, xr[i]) { assert xr[i] == xs[|xg| + i]; }
  }

  lemma InnerOfGroup(ord: Order, xs: seq<Line>, ys: seq<Line>)
    requires Total(ord) && Sorted(ord, xs) && Sorted(ord, ys) && xs != [] && ys != [] && Same(xs[0], ys[0])
    ensures var m, n := Group(xs, ys[0]), Group(ys, xs[0]);
            Inner(xs, ys) == Product(xs[..m], ys[..n]) + Inner(xs[m..], ys[n..])
  {
    var m, n := Group(xs, ys[0]), Group(ys, xs[0]);
    Halves(xs, m);
    Halves(ys, n);
    InnerAround(ord, xs, ys, xs[..m], xs[m..], ys[..n], ys[n..]);
  }

  lemma InnerAround(ord: Order, xs: seq<Line>, ys: seq<Line>, xg: seq<Line>, xr: seq<Line>, yg: seq<Line>,
                    yr: seq<Line>)
    requires Total(ord) && Sorted(ord, xs) && Sorted(ord, ys) && xs != [] && ys != [] && Same(xs[0], ys[0])
    requires xs == xg + xr && |xg| == Group(xs, ys[0]) && ys == yg + yr && |yg| == Group(ys, xs[0])
    ensures Inner(xs, ys) == Product(xg, yg) + Inner(xr, yr)
  {
    GroupApart(ord, xs, ys[0], xg, xr);
    GroupApart(ord, ys, xs[0], yg, yr);
    PartsOf(xg, xr, yg, yr, xs[0]);
    InnerParts(xg, xr, yg, yr);
  }

  lemma PartsOf(xg: seq<Line>, xr: seq<Line>, yg: seq<Line>, yr: seq<Line>, l: Line)
    requires l.key.Some?
    requires (forall i :: 0 <= i < |xg| ==> xg[i].key == l.key) && (forall i :: 0 <= i < |xr| ==> xr[i].key != l.key)
    requires (forall j :: 0 <= j < |yg| ==> yg[j].key == l.key) && (forall j :: 0 <= j < |yr| ==> yr[j].key != l.key)
    ensures forall i, j :: 0 <= i < |xg| && 0 <= j < |yg| ==> Same(xg[i], yg[j])
    ensures forall i, j :: 0 <= i < |xg| && 0 <= j < |yr| ==> !Same(xg[i], yr[j])
    ensures forall i, j :: 0 <= i < |xr| && 0 <= j < |yg| ==> !Same(xr[i], yg[j])
  {
    AllSame(xg, yg, l);
    NoneSame(xg, yr, l);
    NoneSame(xr, yg, l);
  }

  lemma InnerParts(xg: seq<Line>, xr: seq<Line>, yg: seq<Line>, yr: seq<Line>)
    requires forall i, j :: 0 <= i < |xg| && 0 <= j < |yg| ==> Same(xg[i], yg[j])
    requires forall i, j :: 0 <= i < |xg| && 0 <= j < |yr| ==> !Same(xg[i], yr[j])
    requires forall i, j :: 0 <= i < |xr| && 0 <= j < |yg| ==> !Same(xr[i], yg[j])
    ensures Inner(xg + xr, yg + yr) == Product(xg, yg) + Inner(xr, yr)
  {
    InnerGroup(xg, yg, yr);
    InnerDrop(xr, yg, yr);
    InnerAppend(xg, xr, yg + yr);
  }

  lemma InnerFirst(ord: Order, xs: seq<Line>, ys: seq<Line>)
    requires Total(ord) && Sorted(ord, xs) && Sorted(ord, ys) && xs != [] && ys != []
    ensures Compare(ord, xs[0], ys[0]) < 0 ==> Inner(xs, ys) == Inner(xs[1..], ys)
    ensures Compare(ord, xs[0], ys[0]) > 0 ==> Inner(xs, ys) == Inner(xs, ys[1..])
  {
    if Compare(ord, xs[0], ys[0]) < 0 {
      FrontLess(ord, xs, ys);
      RowNone(xs[0], ys);
    } else if Compare(ord, xs[0], ys[0]) > 0 {
      FrontMore(ord, xs, ys);
      InnerDrop(xs, [ys[0]], ys[1..]);
      assert [ys[0]] + ys[1..] == ys;
    }
  }

  lemma InnerEmpty(xs: seq<Line>, ys: seq<Line>)
    requires xs == [] || ys == []
    ensures Inner(xs, ys) == []
  {
    InnerNone(xs, ys);
  }

  /** The pairs that `join` prints on sorted files are those of two nested loops, in
      the same order, also when a file ends inside a group. */
  lemma {:induction false} MergeIsInner(ord: Order, f: Flags, xs: seq<Line>, ys: seq<Line>)
    requires Total(ord) && Sorted(ord, xs) && Sorted(ord, ys)
    ensures PairsOf(Merge(ord, f, xs, ys)) == if f.pairs then Inner(xs, ys) else []
    decreases |xs| + |ys|
  {
    if xs == [] || ys == [] {
      InnerEmpty(xs, ys);
    } else {
      var c := Compare(ord, xs[0], ys[0]);
      InnerFirst(ord, xs, ys);
      if c < 0 {
        var rest := if |xs| == 1 then AllB(f, ys) else Merge(ord, f, xs[1..], ys);
        PairsOfAppend(Only(f.unpairsa, OnlyA(xs[0])), rest);
        if |xs| == 1 {
          AllNoPairs(f, ys);
        } else {
          SortedTail(ord, xs, 1);
          MergeIsInner(ord, f, xs[1..], ys);
        }
      } else if c > 0 {
        var rest := if |ys| == 1 then AllA(f, xs) else Merge(ord, f, xs, ys[1..]);
        PairsOfAppend(Only(f.unpairsb, OnlyB(ys[0])), rest);
        if |ys| == 1 {
          AllNoPairs(f, xs);
          InnerEmpty(xs, ys[1..]);
        } else {
          SortedTail(ord, ys, 1);
          MergeIsInner(ord, f, xs, ys[1..]);
        }
      } else {
        var m, n := Group(xs, ys[0]), Group(ys, xs[0]);
        CompareSame(ord, xs[0], ys[0]);
        InnerOfGroup(ord, xs, ys);
        SortedTail(ord, xs, m);
        SortedTail(ord, ys, n);
        MergeIsInner(ord, f, xs[m..], ys[n..]);
        ProductPairs(xs[..m], ys[..n]);
        PairsOfPairs(Product(xs[..m], ys[..n]));
        PairsOfAppend(if f.pairs then Product(xs[..m], ys[..n]) else [], Merge(ord, f, xs[m..], ys[n..]));
      }
    }
  }

  // ------------------------------------------------- lines without a match

  /** The merge with no line forgotten: when one file has ended, the rest of the
      other has no match. */
  function Outer(ord: Order, f: Flags, xs: seq<Line>, ys: seq<Line>): seq<Event>
    requires Total(ord)
    decreases |xs| + |ys|
  {
    if xs == [] then AllB(f, ys)
    else if ys == [] then AllA(f, xs)
    else
      var c := Compare(ord, xs[0], ys[0]);
      if c < 0 then Only(f.unpairsa, OnlyA(xs[0])) + Outer(ord, f, xs[1..], ys)
      else if c > 0 then Only(f.unpairsb, OnlyB(ys[0])) + Outer(ord, f, xs, ys[1..])
      else
        CompareSame(ord, xs[0], ys[0]);
        var m, n := Group(xs, ys[0]), Group(ys, xs[0]);
        (if f.pairs then Product(xs[..m], ys[..n]) else []) + Outer(ord, f, xs[m..], ys[n..])
  }

  /** The first file ends in a matching group, or at once, and lines of the second
      come after that. */
  ghost predicate LosesB(ord: Order, xs: seq<Line>, ys: seq<Line>) {
    if xs == [] then ys != []
    else
      var last := xs[|xs| - 1];
      && (exists j :: 0 <= j < |ys| && Same(last, ys[j]))
      && (exists j :: 0 <= j < |ys| && Below(ord, last, ys[j]))
  }

  /** The same with the files exchanged. */
  ghost predicate LosesA(ord: Order, xs: seq<Line>, ys: seq<Line>) {
    LosesB(ord, ys, xs)
  }

  lemma {:induction false} AllSome(f: Flags, ls: seq<Line>)
    ensures AllA(f, ls) == [] <==> !f.unpairsa || ls == []
    ensures AllB(f, ls) == [] <==> !f.unpairsb || ls == []
    decreases |ls|
  {
    if ls != [] { AllSome(f, ls[1..]); }
  }

  /** A line that is passed over does not decide what is lost. */
  lemma LosesPassed(ord: Order, xs: seq<Line>, ys: seq<Line>)
    requires Total(ord) && Sorted(ord, xs) && Sorted(ord, ys) && xs != [] && ys != [] && Compare(ord, xs[0], ys[0]) < 0
    ensures |xs| > 1 ==> LosesB(ord, xs[1..], ys) == LosesB(ord, xs, ys)
    ensures |xs| == 1 ==> !LosesB(ord, xs, ys)
    ensures |xs| > 1 ==> LosesB(ord, ys, xs[1..]) == LosesB(ord, ys, xs)
    ensures |xs| == 1 ==> !LosesB(ord, ys, xs)
  {
    FrontLess(ord, xs, ys);
    var last := ys[|ys| - 1];
    assert !Same(last, xs[0]) by { assert !Same(xs[0], ys[|ys| - 1]); }
    assert !Below(ord, last, xs[0]) by {
      if Below(ord, last, xs[0]) {
        assert |ys| > 1 ==> AtMost(ord, ys[0], last);
        NotBelowFirst(ord, xs[0], ys[0], last);
      }
    }
    if |xs| > 1 {
      assert xs[1..][|xs| - 2] == xs[|xs| - 1];
      forall i | 0 <= i < |xs| && (Same(last, xs[i]) || Below(ord, last, xs[i])) ensures xs[1..][i - 1] == xs[i] {}
    }
  }

  lemma NotBelowFirst(ord: Order, x: Line, y: Line, last: Line)
    requires Total(ord) && Compare(ord, x, y) < 0 && AtMost(ord, y, last)
    ensures !Below(ord, last, x)
  {
    if Below(ord, last, x) {
      CompareSame(ord, x, y);
      if x.key == y.key {
        BelowOneWay(ord, last, x);
      } else {
        BelowTransitive(ord, last, x, y);
        BelowOneWay(ord, last, y);
      }
    }
  }

  lemma LosesGroup(ord: Order, xs: seq<Line>, ys: seq<Line>)
    requires Total(ord) && Sorted(ord, xs) && Sorted(ord, ys) && xs != [] && ys != [] && Same(xs[0], ys[0])
    ensures var m, n := Group(xs, ys[0]), Group(ys, xs[0]);
            LosesB(ord, xs[m..], ys[n..]) == LosesB(ord, xs, ys)
  {
    var m, n := Group(xs, ys[0]), Group(ys, xs[0]);
    Halves(xs, m);
    Halves(ys, n);
    LosesAround(ord, xs, ys, xs[..m], xs[m..], ys[..n], ys[n..]);
  }

  lemma LosesAround(ord: Order, xs: seq<Line>, ys: seq<Line>, xg: seq<Line>, xr: seq<Line>, yg: seq<Line>,
                    yr: seq<Line>)
    requires Total(ord) && Sorted(ord, xs) && Sorted(ord, ys) && xs != [] && ys != [] && Same(xs[0], ys[0])
    requires xs == xg + xr && |xg| == Group(xs, ys[0]) && ys == yg + yr && |yg| == Group(ys, xs[0])
    ensures LosesB(ord, xr, yr) == LosesB(ord, xs, ys)
  {
    GroupApart(ord, xs, ys[0], xg, xr);
    GroupApart(ord, ys, xs[0], yg, yr);
    LosesParts(ord, xg, xr, yg, yr, xs[0]);
  }

  lemma LosesParts(ord: Order, xg: seq<Line>, xr: seq<Line>, yg: seq<Line>, yr: seq<Line>, l: Line)
    requires Total(ord) && xg != [] && yg != [] && l.key.Some?
    requires (forall i :: 0 <= i < |xg| ==> xg[i].key == l.key) && (forall j :: 0 <= j < |yg| ==> yg[j].key == l.key)
    requires (forall i :: 0 <= i < |xr| ==> Below(ord, l, xr[i])) &&
             (forall j :: 0 <= j < |yr| ==> Below(ord, l, yr[j]))
    ensures LosesB(ord, xr, yr) == LosesB(ord, xg + xr, yg + yr)
  {
    if xr == [] {
      assert xg + xr == xg;
      LosesAtEnd(ord, xg, yg, yr, l);
    } else {
      LosesLater(ord, xg, xr, yg, yr, l);
    }
  }

  /** After a group that ends its file, what is left of the other is lost. */
  lemma LosesAtEnd(ord: Order, xg: seq<Line>, yg: seq<Line>, yr: seq<Line>, l: Line)
    requires Total(ord) && xg != [] && yg != [] && l.key.Some?
    requires (forall i :: 0 <= i < |xg| ==> xg[i].key == l.key) && (forall j :: 0 <= j < |yg| ==> yg[j].key == l.key)
    requires forall j :: 0 <= j < |yr| ==> Below(ord, l, yr[j])
    ensures LosesB(ord, xg, yg + yr) <==> yr != []
  {
    var last, ys := xg[|xg| - 1], yg + yr;
    assert Same(last, ys[0]);
    if yr != [] { assert Below(ord, last, ys[|yg|]) by { assert ys[|yg|] == yr[0] && Below(ord, l, yr[0]); } }
  }

  /** A group does not matter for a line after it. */
  lemma LosesLater(ord: Order, xg: seq<Line>, xr: seq<Line>, yg: seq<Line>, yr: seq<Line>, l: Line)
    requires Total(ord) && xr != [] && (forall j :: 0 <= j < |yg| ==> yg[j].key == l.key)
    requires forall i :: 0 <= i < |xr| ==> Below(ord, l, xr[i])
    ensures LosesB(ord, xg + xr, yg + yr) == LosesB(ord, xr, yr)
  {
    var last, ys := xr[|xr| - 1], yg + yr;
    assert (xg + xr)[|xg| + |xr| - 1] == last;
    BelowOneWay(ord, l, last);
    forall j | 0 <= j < |yg| ensures !Below(ord, last, ys[j]) && !Same(last, ys[j]) {
      assert Below(ord, last, yg[j]) == Below(ord, last, l);
    }
    forall j | 0 <= j < |yr| ensures ys[|yg| + j] == yr[j] {}
    forall j | |yg| <= j < |ys| ensures ys[j] == yr[j - |yg|] {}
  }

  lemma Cancel(a: seq<Event>, b: seq<Event>, c: seq<Event>)
    ensures a + b == a + c <==> b == c
  {
    assert (a + b)[|a|..] == b && (a + c)[|a|..] == c;
  }

  /** On sorted files `join` prints every line without a match that it was asked
      for if and only if neither file ends inside a matching group, or is empty,
      while lines of the other that should be printed come after. */
  lemma {:induction false} MergeIsOuterIff(ord: Order, f: Flags, xs: seq<Line>, ys: seq<Line>)
    requires Total(ord) && Sorted(ord, xs) && Sorted(ord, ys)
    ensures Merge(ord, f, xs, ys) == Outer(ord, f, xs, ys)
            <==> !(f.unpairsb && LosesB(ord, xs, ys)) && !(f.unpairsa && LosesA(ord, xs, ys))
    decreases |xs| + |ys|
  {
    if xs == [] || ys == [] {
      AllSome(f, xs);
      AllSome(f, ys);
    } else {
      var c := Compare(ord, xs[0], ys[0]);
      if c < 0 {
        OuterIffLess(ord, f, xs, ys);
        if |xs| > 1 { SortedTail(ord, xs, 1); MergeIsOuterIff(ord, f, xs[1..], ys); }
      } else if c > 0 {
        OuterIffMore(ord, f, xs, ys);
        if |ys| > 1 { SortedTail(ord, ys, 1); MergeIsOuterIff(ord, f, xs, ys[1..]); }
      } else {
        OuterIffSame(ord, f, xs, ys);
        var m, n := Group(xs, ys[0]), Group(ys, xs[0]);
        SortedTail(ord, xs, m);
        SortedTail(ord, ys, n);
        MergeIsOuterIff(ord, f, xs[m..], ys[n..]);
      }
    }
  }

  /** With `-a 2`, an empty first file and one line in the second, that line is
      wanted and not printed. */
  lemma EmptyFirstFile(ord: Order, l: Line)
    requires Total(ord)
    ensures var f := Flags(true, false, true);
            && LosesB(ord, [], [l]) && Outer(ord, f, [], [l]) == [OnlyB(l)] && Unmatched([l], []) == [l]
            && Merge(ord, f, [], [l]) == []
  {
    var f := Flags(true, false, true);
    assert [l][1..] == [] && AllB(f, []) == [] && Unmatched([], []) == [];
  }

  /** The same when the first file ends in a group: its one line has a match, and
      the line after that match is not printed. */
  lemma EndsInGroup(ord: Order, a: Line, b: Line, l: Line)
    requires Total(ord) && Same(a, b) && Below(ord, b, l)
    ensures var f := Flags(true, false, true);
            Outer(ord, f, [a], [b, l]) == [Pair(a, b), OnlyB(l)] && Merge(ord, f, [a], [b, l]) == [Pair(a, b)]
  {
    var f := Flags(true, false, true);
    CompareSame(ord, a, b);
    assert [a][1..] == [] && [b, l][1..] == [l] && [l][1..] == [];
    assert Group([a], b) == 1 && Group([b, l], a) == 1 by { assert Group([l], a) == 0 && Group([], b) == 0; }
    assert [a][..1] == [a] && [b, l][..1] == [b];
    assert Product([a], [b]) == PairsWith(a, [b]) + Product([], [b]) == [Pair(a, b)];
    assert AllB(f, [l]) == [OnlyB(l)] + AllB(f, []) == [OnlyB(l)];
  }

  lemma OuterIffLess(ord: Order, f: Flags, xs: seq<Line>, ys: seq<Line>)
    requires Total(ord) && Sorted(ord, xs) && Sorted(ord, ys) && xs != [] && ys != [] && Compare(ord, xs[0], ys[0]) < 0
    ensures |xs| == 1 ==> Merge(ord, f, xs, ys) == Outer(ord, f, xs, ys) && !LosesB(ord, xs, ys) && !LosesA(ord, xs, ys)
    ensures |xs| > 1 ==>
              && LosesB(ord, xs[1..], ys) == LosesB(ord, xs, ys) && LosesA(ord, xs[1..], ys) == LosesA(ord, xs, ys)
              && (Merge(ord, f, xs, ys) == Outer(ord, f, xs, ys) <==>
                  Merge(ord, f, xs[1..], ys) == Outer(ord, f, xs[1..], ys))
  {
    LosesPassed(ord, xs, ys);
    if |xs| > 1 { Cancel(Only(f.unpairsa, OnlyA(xs[0])), Merge(ord, f, xs[1..], ys), Outer(ord, f, xs[1..], ys)); }
  }

  lemma OuterIffMore(ord: Order, f: Flags, xs: seq<Line>, ys: seq<Line>)
    requires Total(ord) && Sorted(ord, xs) && Sorted(ord, ys) && xs != [] && ys != [] && Compare(ord, xs[0], ys[0]) > 0
    ensures |ys| == 1 ==> Merge(ord, f, xs, ys) == Outer(ord, f, xs, ys) && !LosesB(ord, xs, ys) && !LosesA(ord, xs, ys)
    ensures |ys| > 1 ==>
              && LosesB(ord, xs, ys[1..]) == LosesB(ord, xs, ys) && LosesA(ord, xs, ys[1..]) == LosesA(ord, xs, ys)
              && (Merge(ord, f, xs, ys) == Outer(ord, f, xs, ys) <==>
                  Merge(ord, f, xs, ys[1..]) == Outer(ord, f, xs, ys[1..]))
  {
    CompareSame(ord, xs[0], ys[0]);
    LosesPassed(ord, ys, xs);
    if |ys| > 1 { Cancel(Only(f.unpairsb, OnlyB(ys[0])), Merge(ord, f, xs, ys[1..]), Outer(ord, f, xs, ys[1..])); }
  }

  lemma OuterIffSame(ord: Order, f: Flags, xs: seq<Line>, ys: seq<Line>)
    requires Total(ord) && Sorted(ord, xs) && Sorted(ord, ys) && xs != [] && ys != [] && Compare(ord, xs[0], ys[0]) == 0
    ensures var m, n := Group(xs, ys[0]), Group(ys, xs[0]);
            && m + n > 0
            && LosesB(ord, xs[m..], ys[n..]) == LosesB(ord, xs, ys)
            && LosesA(ord, xs[m..], ys[n..]) == LosesA(ord, xs, ys)
            && (Merge(ord, f, xs, ys) == Outer(ord, f, xs, ys)
                <==> Merge(ord, f, xs[m..], ys[n..]) == Outer(ord, f, xs[m..], ys[n..]))
  {
    CompareSame(ord, xs[0], ys[0]);
    LosesGroup(ord, xs, ys);
    LosesGroup(ord, ys, xs);
    var m, n := Group(xs, ys[0]), Group(ys, xs[0]);
    Cancel(if f.pairs then Product(xs[..m], ys[..n]) else [],
           Merge(ord, f, xs[m..], ys[n..]), Outer(ord, f, xs[m..], ys[n..]));
  }

  // ---------------------------------------------- what the full merge means

  /** The lines without a match that were printed, of one file. */
  function Alone(es: seq<Event>, second: bool): seq<Line> {
    if es == [] then [] else AloneIn(es[0], second) + Alone(es[1..], second)
  }

  function AloneIn(e: Event, second: bool): seq<Line> {
    if e.OnlyA? && !second then [e.l] else if e.OnlyB? && second then [e.l] else []
  }

  predicate Matched(x: Line, ys: seq<Line>) { exists j :: 0 <= j < |ys| && Same(x, ys[j]) }

  /** The lines of xs that no line of ys matches, in order. */
  function Unmatched(xs: seq<Line>, ys: seq<Line>): seq<Line> {
    if xs == [] then [] else (if Matched(xs[0], ys) then [] else [xs[0]]) + Unmatched(xs[1..], ys)
  }

  lemma {:induction false} AloneAppend(a: seq<Event>, b: seq<Event>, second: bool)
    ensures Alone(a + b, second) == Alone(a, second) + Alone(b, second)
    decreases |a|
  {
    if a == [] {
      assert a + b == b;
    } else {
      assert (a + b)[1..] == a[1..] + b && (a + b)[0] == a[0];
      AloneAppend(a[1..], b, second);
      Assoc(AloneIn(a[0], second), Alone(a[1..], second), Alone(b, second));
    }
  }

  lemma {:induction false} AloneAll(f: Flags, ls: seq<Line>)
    ensures Alone(AllA(f, ls), false) == (if f.unpairsa then ls else []) && Alone(AllA(f, ls), true) == []
    ensures Alone(AllB(f, ls), true) == (if f.unpairsb then ls else []) && Alone(AllB(f, ls), false) == []
    decreases |ls|
  {
    if ls != [] {
      AloneAll(f, ls[1..]);
      assert [ls[0]] + ls[1..] == ls;
      forall second: bool
        ensures Alone(AllA(f, ls), second) ==
                Alone(Only(f.unpairsa, OnlyA(ls[0])), second) + Alone(AllA(f, ls[1..]), second)
        ensures Alone(AllB(f, ls), second) ==
                Alone(Only(f.unpairsb, OnlyB(ls[0])), second) + Alone(AllB(f, ls[1..]), second)
      {
        AloneAppend(Only(f.unpairsa, OnlyA(ls[0])), AllA(f, ls[1..]), second);
        AloneAppend(Only(f.unpairsb, OnlyB(ls[0])), AllB(f, ls[1..]), second);
      }
    }
  }

  lemma {:induction false} AlonePairs(es: seq<Event>, second: bool)
    requires forall i :: 0 <= i < |es| ==> es[i].Pair?
    ensures Alone(es, second) == []
    decreases |es|
  {
    if es != [] { AlonePairs(es[1..], second); }
  }

  lemma {:induction false} UnmatchedAll(xs: seq<Line>, ys: seq<Line>)
    requires forall i, j :: 0 <= i < |xs| && 0 <= j < |ys| ==> !Same(xs[i], ys[j])
    ensures Unmatched(xs, ys) == xs
    decreases |xs|
  {
    if xs != [] {
      UnmatchedAll(xs[1..], ys);
      assert [xs[0]] + xs[1..] == xs;
    }
  }

  /** A group is matched; lines that match nothing do not matter. */
  lemma {:induction false} UnmatchedGroup(xg: seq<Line>, xr: seq<Line>, ys: seq<Line>)
    requires forall i :: 0 <= i < |xg| ==> Matched(xg[i], ys)
    ensures Unmatched(xg + xr, ys) == Unmatched(xr, ys)
    decreases |xg|
  {
    if xg == [] {
      assert xg + xr == xr;
    } else {
      assert (xg + xr)[1..] == xg[1..] + xr;
      UnmatchedGroup(xg[1..], xr, ys);
    }
  }

  lemma {:induction false} UnmatchedDrop(xs: seq<Line>, yg: seq<Line>, yr: seq<Line>)
    requires forall i, j :: 0 <= i < |xs| && 0 <= j < |yg| ==> !Same(xs[i], yg[j])
    ensures Unmatched(xs, yg + yr) == Unmatched(xs, yr)
    decreases |xs|
  {
    if xs != [] {
      UnmatchedDrop(xs[1..], yg, yr);
      var x, ys := xs[0], yg + yr;
      assert Matched(x, ys) <==> Matched(x, yr) by {
        forall j | 0 <= j < |yr| ensures ys[|yg| + j] == yr[j] {}
        forall j | |yg| <= j < |ys| ensures ys[j] == yr[j - |yg|] {}
      }
    }
  }

  lemma UnmatchedOfGroup(ord: Order, xs: seq<Line>, ys: seq<Line>)
    requires Total(ord) && Sorted(ord, xs) && Sorted(ord, ys) && xs != [] && ys != [] && Same(xs[0], ys[0])
    ensures Unmatched(xs, ys) == Unmatched(xs[Group(xs, ys[0])..], ys[Group(ys, xs[0])..])
  {
    var m, n := Group(xs, ys[0]), Group(ys, xs[0]);
    Halves(xs, m);
    Halves(ys, n);
    UnmatchedAround(ord, xs, ys, xs[..m], xs[m..], ys[..n], ys[n..]);
  }

  lemma UnmatchedAround(ord: Order, xs: seq<Line>, ys: seq<Line>, xg: seq<Line>, xr: seq<Line>, yg: seq<Line>,
                        yr: seq<Line>)
    requires Total(ord) && Sorted(ord, xs) && Sorted(ord, ys) && xs != [] && ys != [] && Same(xs[0], ys[0])
    requires xs == xg + xr && |xg| == Group(xs, ys[0]) && ys == yg + yr && |yg| == Group(ys, xs[0])
    ensures Unmatched(xs, ys) == Unmatched(xr, yr)
  {
    GroupApart(ord, xs, ys[0], xg, xr);
    GroupApart(ord, ys, xs[0], yg, yr);
    forall i | 0 <= i < |xg| ensures Matched(xg[i], ys) { assert Same(xg[i], ys[0]); }
    UnmatchedGroup(xg, xr, ys);
    NoneSame(xr, yg, xs[0]);
    UnmatchedDrop(xr, yg, yr);
  }

  lemma UnmatchedFirst(ord: Order, xs: seq<Line>, ys: seq<Line>)
    requires Total(ord) && Sorted(ord, xs) && Sorted(ord, ys) && xs != [] && ys != [] && Compare(ord, xs[0], ys[0]) < 0
    ensures Unmatched(xs, ys) == [xs[0]] + Unmatched(xs[1..], ys)
    ensures Unmatched(ys, xs) == Unmatched(ys, xs[1..])
  {
    FrontLess(ord, xs, ys);
    forall j | 0 <= j < |ys| ensures !Same(ys[j], xs[0]) { assert !Same(xs[0], ys[j]); }
    UnmatchedDrop(ys, [xs[0]], xs[1..]);
    assert [xs[0]] + xs[1..] == xs;
  }

  /** What es prints alone are the lines of xs and of ys without a match, as far as
      they were asked for. */
  ghost predicate PrintsUnmatched(f: Flags, es: seq<Event>, xs: seq<Line>, ys: seq<Line>) {
    && Alone(es, false) == (if f.unpairsa then Unmatched(xs, ys) else [])
    && Alone(es, true) == (if f.unpairsb then Unmatched(ys, xs) else [])
  }

  /** The full merge prints, for each file whose unmatched lines were asked for,
      exactly those, once and in order. */
  lemma {:induction false} OuterIsUnmatched(ord: Order, f: Flags, xs: seq<Line>, ys: seq<Line>)
    requires Total(ord) && Sorted(ord, xs) && Sorted(ord, ys)
    ensures PrintsUnmatched(f, Outer(ord, f, xs, ys), xs, ys)
    decreases |xs| + |ys|
  {
    if xs == [] || ys == [] {
      AloneAll(f, xs);
      AloneAll(f, ys);
      UnmatchedAll(xs, ys);
      UnmatchedAll(ys, xs);
    } else {
      var c := Compare(ord, xs[0], ys[0]);
      CompareSame(ord, xs[0], ys[0]);
      if c < 0 {
        SortedTail(ord, xs, 1);
        OuterIsUnmatched(ord, f, xs[1..], ys);
        UnmatchedLess(ord, f, xs, ys, Outer(ord, f, xs[1..], ys));
      } else if c > 0 {
        SortedTail(ord, ys, 1);
        OuterIsUnmatched(ord, f, xs, ys[1..]);
        UnmatchedMore(ord, f, xs, ys, Outer(ord, f, xs, ys[1..]));
      } else {
        var m, n := Group(xs, ys[0]), Group(ys, xs[0]);
        GroupKeys(ord, xs, ys[0]);
        SortedTail(ord, xs, m);
        SortedTail(ord, ys, n);
        OuterIsUnmatched(ord, f, xs[m..], ys[n..]);
        UnmatchedSame(ord, f, xs, ys, Outer(ord, f, xs[m..], ys[n..]));
      }
    }
  }

  lemma UnmatchedLess(ord: Order, f: Flags, xs: seq<Line>, ys: seq<Line>, es: seq<Event>)
    requires Total(ord) && Sorted(ord, xs) && Sorted(ord, ys) && xs != [] && ys != [] && Compare(ord, xs[0], ys[0]) < 0
    requires PrintsUnmatched(f, es, xs[1..], ys)
    ensures PrintsUnmatched(f, Only(f.unpairsa, OnlyA(xs[0])) + es, xs, ys)
  {
    UnmatchedFirst(ord, xs, ys);
    AloneOne(Only(f.unpairsa, OnlyA(xs[0])), es);
  }

  lemma UnmatchedMore(ord: Order, f: Flags, xs: seq<Line>, ys: seq<Line>, es: seq<Event>)
    requires Total(ord) && Sorted(ord, xs) && Sorted(ord, ys) && xs != [] && ys != [] && Compare(ord, xs[0], ys[0]) > 0
    requires PrintsUnmatched(f, es, xs, ys[1..])
    ensures PrintsUnmatched(f, Only(f.unpairsb, OnlyB(ys[0])) + es, xs, ys)
  {
    CompareSame(ord, xs[0], ys[0]);
    UnmatchedFirst(ord, ys, xs);
    AloneOne(Only(f.unpairsb, OnlyB(ys[0])), es);
  }

  lemma UnmatchedSame(ord: Order, f: Flags, xs: seq<Line>, ys: seq<Line>, es: seq<Event>)
    requires Total(ord) && Sorted(ord, xs) && Sorted(ord, ys) && xs != [] && ys != [] && Same(xs[0], ys[0])
    requires PrintsUnmatched(f, es, xs[Group(xs, ys[0])..], ys[Group(ys, xs[0])..])
    ensures var pairs := if f.pairs then Product(xs[..Group(xs, ys[0])], ys[..Group(ys, xs[0])]) else [];
            PrintsUnmatched(f, pairs + es, xs, ys)
  {
    UnmatchedOfGroup(ord, xs, ys);
    UnmatchedOfGroup(ord, ys, xs);
    AloneProduct(f, xs[..Group(xs, ys[0])], ys[..Group(ys, xs[0])], es);
  }

  lemma AloneOne(a: seq<Event>, b: seq<Event>)
    ensures Alone(a + b, false) == Alone(a, false) + Alone(b, false) &&
            Alone(a + b, true) == Alone(a, true) + Alone(b, true)
  {
    AloneAppend(a, b, false);
    AloneAppend(a, b, true);
  }

  lemma AloneProduct(f: Flags, xs: seq<Line>, ys: seq<Line>, b: seq<Event>)
    ensures var a := if f.pairs then Product(xs, ys) else [];
            Alone(a + b, false) == Alone(b, false) && Alone(a + b, true) == Alone(b, true)
  {
    var a := if f.pairs then Product(xs, ys) else [];
    AloneOne(a, b);
    ProductPairs(xs, ys);
    AlonePairs(a, false);
    AlonePairs(a, true);
  }
}

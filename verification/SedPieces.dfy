/** The replacement text of `s`, piece by piece. */
module SedPieces {
  import opened Basics
  import opened SedSubst

  /** A character that stands for itself, `&`, `\0` to `\9`, or another character
      behind a backslash. */
  datatype Piece = Plainly(c: char) | Whole | Group(d: nat) | Escaped(c: char)

  predicate PieceOk(p: Piece) {
    match p
    case Plainly(c) => c != '&' && c != '\\'
    case Whole => true
    case Group(d) => d <= 9
    case Escaped(c) => c !in "0123456789"
  }

  predicate PiecesOk(ps: seq<Piece>) {
    ps == [] || (PieceOk(ps[0]) && PiecesOk(ps[1..]))
  }

  function Write(p: Piece): (w: string)
    requires PieceOk(p)
    ensures w != ""
  {
    match p
    case Plainly(c) => [c]
    case Whole => "&"
    case Group(d) => ['\\', "0123456789"[d]]
    case Escaped(c) => ['\\', c]
  }

  /** The replacement as it is typed. */
  function WriteAll(ps: seq<Piece>): string
    requires PiecesOk(ps)
  {
    if ps == [] then "" else Write(ps[0]) + WriteAll(ps[1..])
  }

  /** Groups 0 to nsub, of which 0 is the whole match. */
  predicate Within(ps: seq<Piece>, nsub: nat) {
    ps == [] || ((ps[0].Group? ==> ps[0].d <= nsub) && Within(ps[1..], nsub))
  }

  function Value(p: Piece, groups: seq<string>): string
    requires |groups| > 0 && (p.Group? ==> p.d < |groups|)
  {
    match p
    case Plainly(c) => [c]
    case Whole => groups[0]
    case Group(d) => groups[d]
    case Escaped(c) => [c]
  }

  /** What the replacement puts in place of a match. */
  function ValueAll(ps: seq<Piece>, groups: seq<string>): string
    requires |groups| > 0 && Within(ps, |groups| - 1)
  {
    if ps == [] then "" else Value(ps[0], groups) + ValueAll(ps[1..], groups)
  }

  lemma DigitAt(d: nat)
    requires d <= 9
    ensures Digit("0123456789"[d]) == Some(d)
  {
  }

  lemma NoDigit(c: char)
    ensures c in "0123456789" <==> Digit(c).Some?
  {
    if Digit(c).Some? { assert "0123456789"[Digit(c).value] == c; }
  }

  /** The piece stands at i, as the loop sees it. */
  predicate Stands(text: string, i: nat, p: Piece)
    requires PieceOk(p)
  {
    i + |Write(p)| <= |text| &&
    match p
    case Plainly(c) => text[i] == c
    case Whole => text[i] == '&'
    case Group(d) => text[i] == '\\' && Digit(text[i + 1]) == Some(d)
    case Escaped(c) => text[i] == '\\' && text[i + 1] == c && Digit(c) == None
  }

  lemma WrittenStands(pre: string, p: Piece, more: string)
    requires PieceOk(p)
    ensures Stands((pre + Write(p)) + more, |pre|, p)
  {
    var w, text := Write(p), (pre + Write(p)) + more;
    assert text[|pre|] == w[0] && (|w| == 2 ==> text[|pre| + 1] == w[1]);
    if p.Group? { DigitAt(p.d); }
    if p.Escaped? { NoDigit(p.c); }
  }

  /** One piece is read. */
  lemma PieceRead(text: string, i: nat, p: Piece, nsub: nat)
    requires PieceOk(p) && Stands(text, i, p)
    ensures WellEscaped(text, i) <==> WellEscaped(text, i + |Write(p)|)
    ensures WellEscaped(text, i) ==>
              (RefsOk(text, nsub, i) <==> (p.Group? ==> p.d <= nsub) && RefsOk(text, nsub, i + |Write(p)|))
  {
  }

  lemma PieceStandsFor(text: string, i: nat, p: Piece, groups: seq<string>)
    requires PieceOk(p) && Stands(text, i, p)
    requires |groups| > 0 && WellEscaped(text, i) && RefsOk(text, |groups| - 1, i)
    ensures WellEscaped(text, i + |Write(p)|) && RefsOk(text, |groups| - 1, i + |Write(p)|)
    ensures p.Group? ==> p.d < |groups|
    ensures Expand(text, i, groups) == Value(p, groups) + Expand(text, i + |Write(p)|, groups)
  {
  }

  lemma {:induction false} PiecesRead(pre: string, ps: seq<Piece>, nsub: nat)
    requires PiecesOk(ps)
    ensures WellEscaped(pre + WriteAll(ps), |pre|)
    ensures RefsOk(pre + WriteAll(ps), nsub, |pre|) <==> Within(ps, nsub)
    decreases |ps|
  {
    if ps == [] {
      assert pre + "" == pre;
    } else {
      var w, more := Write(ps[0]), WriteAll(ps[1..]);
      PiecesRead(pre + w, ps[1..], nsub);
      Assoc(pre, w, more);
      WrittenStands(pre, ps[0], more);
      PieceRead((pre + w) + more, |pre|, ps[0], nsub);
    }
  }

  lemma {:induction false} PiecesStandFor(pre: string, ps: seq<Piece>, groups: seq<string>)
    requires PiecesOk(ps) && |groups| > 0 && Within(ps, |groups| - 1)
    requires WellEscaped(pre + WriteAll(ps), |pre|) && RefsOk(pre + WriteAll(ps), |groups| - 1, |pre|)
    ensures Expand(pre + WriteAll(ps), |pre|, groups) == ValueAll(ps, groups)
    decreases |ps|
  {
    if ps == [] {
      assert pre + "" == pre;
    } else {
      var w, more := Write(ps[0]), WriteAll(ps[1..]);
      Assoc(pre, w, more);
      PiecesRead(pre + w, ps[1..], |groups| - 1);
      PiecesStandFor(pre + w, ps[1..], groups);
      PieceFirst(pre, ps[0], more, groups);
    }
  }

  lemma PieceFirst(pre: string, p: Piece, more: string, groups: seq<string>)
    requires PieceOk(p) && |groups| > 0
    requires var text := (pre + Write(p)) + more; WellEscaped(text, |pre|) && RefsOk(text, |groups| - 1, |pre|)
    ensures var text, next := (pre + Write(p)) + more, |pre + Write(p)|;
            && WellEscaped(text, next) && RefsOk(text, |groups| - 1, next) && (p.Group? ==> p.d < |groups|)
            && Expand(text, |pre|, groups) == Value(p, groups) + Expand(text, next, groups)
  {
    WrittenStands(pre, p, more);
    PieceStandsFor((pre + Write(p)) + more, |pre|, p, groups);
  }

  /** A replacement stands for its pieces, and refers to a missing group exactly if
      one of them does. */
  lemma WrittenStandsFor(ps: seq<Piece>, groups: seq<string>)
    requires PiecesOk(ps) && |groups| > 0
    ensures WellEscaped(WriteAll(ps), 0)
    ensures RefsOk(WriteAll(ps), |groups| - 1, 0) <==> Within(ps, |groups| - 1)
    ensures Within(ps, |groups| - 1) ==>
              Text(WriteAll(ps), groups) == Expand(WriteAll(ps), 0, groups) == ValueAll(ps, groups)
  {
    assert "" + WriteAll(ps) == WriteAll(ps);
    PiecesRead("", ps, |groups| - 1);
    if Within(ps, |groups| - 1) { PiecesStandFor("", ps, groups); }
  }

  /** Every replacement without a backslash at its end is written of pieces, in one
      way. */
  lemma {:induction false} EveryTextWritten(text: string, i: nat) returns (ps: seq<Piece>)
    requires i <= |text| && WellEscaped(text, i)
    ensures PiecesOk(ps) && WriteAll(ps) == text[i..]
    decreases |text| - i
  {
    if i == |text| {
      ps := [];
    } else if text[i] == '\\' {
      var more := EveryTextWritten(text, i + 2);
      NoDigit(text[i + 1]);
      var p := match Digit(text[i + 1]) case Some(d) => Group(d) case None => Escaped(text[i + 1]);
      if p.Group? { assert "0123456789"[p.d] == text[i + 1]; }
      ps := [p] + more;
      assert ps[1..] == more && text[i..] == [text[i], text[i + 1]] + text[i + 2..];
    } else {
      var more := EveryTextWritten(text, i + 1);
      ps := [if text[i] == '&' then Whole else Plainly(text[i])] + more;
      assert ps[1..] == more && text[i..] == [text[i]] + text[i + 1..];
    }
  }

  lemma {:induction false} WrittenOnce(ps: seq<Piece>, qs: seq<Piece>)
    requires PiecesOk(ps) && PiecesOk(qs) && WriteAll(ps) == WriteAll(qs)
    ensures ps == qs
    decreases |ps|
  {
    if ps == [] {
      assert |WriteAll(qs)| == 0;
    } else {
      SameFirst(ps[0], WriteAll(ps[1..]), qs[0], WriteAll(qs[1..]));
      WrittenOnce(ps[1..], qs[1..]);
      assert ps == [ps[0]] + ps[1..] && qs == [qs[0]] + qs[1..];
    }
  }

  lemma SameFirst(p: Piece, a: string, q: Piece, b: string)
    requires PieceOk(p) && PieceOk(q) && Write(p) + a == Write(q) + b
    ensures p == q && a == b
  {
    var s, t := Write(p) + a, Write(q) + b;
    assert s[0] == Write(p)[0] && t[0] == Write(q)[0];
    if |Write(p)| == 2 {
      assert s[1] == Write(p)[1] && t[1] == Write(q)[1];
      if p.Group? { DigitAt(p.d); }
      if q.Group? { DigitAt(q.d); }
    }
    assert a == s[|Write(p)|..] && b == t[|Write(q)|..];
  }

  /** The inner loop of `s` on a replacement of which the pieces are known. */
  method ReplaceBy(ghost ps: seq<Piece>, repl: string, groups: seq<string>) returns (ok: bool, text: string)
    requires PiecesOk(ps) && repl == WriteAll(ps) && |groups| > 0
    ensures ok <==> Within(ps, |groups| - 1)
    ensures ok ==> text == ValueAll(ps, groups)
  {
    WrittenStandsFor(ps, groups);
    ok, text := Replacement(repl, groups);
  }

  /** One match replaced: what is before and after it stays, and its groups are put
      in its place. */
  lemma OneReplaced(re: Regex, patt: string, ps: seq<Piece>, h: Hit)
    requires PiecesOk(ps) && Chain(re, patt, [h], 0) && Within(ps, re.nsub)
    ensures |h.groups| == re.nsub + 1 && WellEscaped(WriteAll(ps), 0) && h.so <= h.eo <= |patt|
    ensures Splice(re, patt, WriteAll(ps), [h], 0) == patt[..h.so] + ValueAll(ps, h.groups) + patt[h.eo..]
  {
    assert [h][1..] == [];
    WrittenStandsFor(ps, h.groups);
  }

  /** With `\1` in place of `\(a\)b` there is `a` left of `ab`. */
  lemma FirstGroup()
    ensures var repl, groups := "\\1", ["ab", "a"];
            WellEscaped(repl, 0) && RefsOk(repl, 1, 0) && Expand(repl, 0, groups) == "a"
  {
    var ps := [Group(1)];
    assert ps[1..] == [];
    assert WriteAll(ps) == "\\1" && ValueAll(ps, ["ab", "a"]) == "a";
    WrittenStandsFor(ps, ["ab", "a"]);
  }
}

/** sed's `s`: the loop that finds match after match in the pattern space, and the
    text it puts together. */
module SedSubst {
  import opened Basics

  /** A match relative to the text searched, and the text of the whole match and
      of each group; a group that took no part is empty. */
  datatype Match = Match(so: nat, eo: nat, groups: seq<string>)

  /** The regular expression library, and the length of the rune at the start of a
      text, 0 if the text ends inside it. */
  datatype Regex = Regex(nsub: nat, find: (string, bool) -> Option<Match>, runeLength: string -> nat)

  ghost predicate Offsets(re: Regex, s: string, m: Match) {
    m.so <= m.eo <= |s| && |m.groups| == re.nsub + 1 && m.groups[0] == s[m.so..m.eo]
  }

  ghost predicate MatchOk(re: Regex, s: string, notbol: bool) {
    re.find(s, notbol).Some? ==> Offsets(re, s, re.find(s, notbol).value)
  }

  ghost predicate RuneOk(re: Regex, s: string) { re.runeLength(s) <= |s| }

  /** Matches have valid offsets; a rune is no longer than the text. */
  ghost predicate Valid(re: Regex) {
    && (forall s, notbol {:trigger MatchOk(re, s, notbol)} :: MatchOk(re, s, notbol))
    && (forall s {:trigger RuneOk(re, s)} :: RuneOk(re, s))
  }

  lemma Cut(s: string, a: nat, b: nat, c: nat)
    requires a <= b <= c <= |s|
    ensures s[a..c] == s[a..b] + s[b..c]
  {
  }

  lemma SliceFrom(s: string, i: nat, n: nat)
    requires i + n <= |s|
    ensures s[i..][..n] == s[i..i + n]
  {
  }

  // ------------------------------------------------------ replacement text

  predicate Special(c: char) { c == '&' || c == '\\' }

  function Digit(c: char): Option<nat> { if '0' <= c <= '9' then Some(c as nat - '0' as nat) else None }

  /** No backslash without a character after it: where the text ends at the
      delimiter there is none. */
  predicate WellEscaped(repl: string, p: nat)
    requires p <= |repl|
    decreases |repl| - p
  {
    if p == |repl| then true
    else if repl[p] == '\\' then p + 1 < |repl| && WellEscaped(repl, p + 2)
    else WellEscaped(repl, p + 1)
  }

  /** No back reference beyond the groups. */
  predicate RefsOk(repl: string, nsub: nat, p: nat)
    requires p <= |repl| && WellEscaped(repl, p)
    decreases |repl| - p
  {
    if p == |repl| then true
    else if repl[p] == '\\' then
      (Digit(repl[p + 1]).Some? ==> Digit(repl[p + 1]).value <= nsub) && RefsOk(repl, nsub, p + 2)
    else RefsOk(repl, nsub, p + 1)
  }

  /** What the replacement stands for from p on: `&` and `\0` are the match, `\1`
      to `\9` its groups, another character after a backslash is itself. */
  function Expand(repl: string, p: nat, groups: seq<string>): string
    requires p <= |repl| && WellEscaped(repl, p) && |groups| > 0 && RefsOk(repl, |groups| - 1, p)
    decreases |repl| - p
  {
    if p == |repl| then ""
    else if repl[p] == '&' then groups[0] + Expand(repl, p + 1, groups)
    else if repl[p] == '\\' then
      (match Digit(repl[p + 1]) case Some(d) => groups[d] case None => [repl[p + 1]]) + Expand(repl, p + 2, groups)
    else [repl[p]] + Expand(repl, p + 1, groups)
  }

  ghost predicate Plain(repl: string, p: nat, q: nat)
    requires p <= q <= |repl|
  {
    forall i :: p <= i < q ==> !Special(repl[i])
  }

  lemma {:induction false} EscapedPast(repl: string, p: nat, q: nat)
    requires p <= q <= |repl| && Plain(repl, p, q) && WellEscaped(repl, p)
    ensures WellEscaped(repl, q)
    decreases q - p
  {
    if p < q { EscapedPast(repl, p + 1, q); }
  }

  lemma {:induction false} RefsPast(repl: string, nsub: nat, p: nat, q: nat)
    requires p <= q <= |repl| && Plain(repl, p, q) && WellEscaped(repl, p) && WellEscaped(repl, q)
    ensures RefsOk(repl, nsub, p) == RefsOk(repl, nsub, q)
    decreases q - p
  {
    if p < q { RefsPast(repl, nsub, p + 1, q); }
  }

  lemma ConsSlice(s: string, p: nat, q: nat, more: string)
    requires p < q <= |s|
    ensures [s[p]] + (s[p + 1..q] + more) == s[p..q] + more
  {
    assert s[p..q] == [s[p]] + s[p + 1..q];
  }

  lemma {:induction false} ExpandPlain(repl: string, p: nat, q: nat, groups: seq<string>)
    requires p <= q <= |repl| && Plain(repl, p, q) && WellEscaped(repl, p) && WellEscaped(repl, q)
    requires |groups| > 0 && RefsOk(repl, |groups| - 1, p) && RefsOk(repl, |groups| - 1, q)
    ensures Expand(repl, p, groups) == repl[p..q] + Expand(repl, q, groups)
    decreases q - p
  {
    if p < q {
      ExpandPlain(repl, p + 1, q, groups);
      ConsSlice(repl, p, q, Expand(repl, q, groups));
    }
  }

  /** `strcspn(p, "\\&")`, from p. */
  method Span(repl: string, p: nat) returns (q: nat)
    requires p <= |repl|
    ensures p <= q <= |repl| && (q < |repl| ==> Special(repl[q])) && Plain(repl, p, q)
  {
    q := p;
    while q < |repl| && !Special(repl[q])
      invariant p <= q <= |repl| && Plain(repl, p, q)
    {
      q := q + 1;
    }
  }

  /** The switch of the inner loop, at an `&` or a backslash. */
  method Mark(repl: string, p: nat, groups: seq<string>) returns (ok: bool, text: string, q: nat)
    requires p < |repl| && Special(repl[p]) && WellEscaped(repl, p) && |groups| > 0
    ensures ok ==> p < q <= |repl| && WellEscaped(repl, q)
    ensures ok ==> RefsOk(repl, |groups| - 1, p) == RefsOk(repl, |groups| - 1, q)
    ensures ok && RefsOk(repl, |groups| - 1, p) ==> Expand(repl, p, groups) == text + Expand(repl, q, groups)
    ensures !ok ==> !RefsOk(repl, |groups| - 1, p)
  {
    ok, text, q := true, "", p;
    if repl[q] == '&' {
      text := groups[0];
    } else {
      q := q + 1;
      var d := Digit(repl[q]);
      if d.None? {
        text := [repl[q]];
      } else if d.value > |groups| - 1 {
        ok := false;
      } else {
        text := groups[d.value];
      }
    }
    q := q + 1;
  }

  /** What is left of the replacement at p, given what has been put together. */
  ghost predicate Expanding(repl: string, groups: seq<string>, text: string, p: nat)
    requires p <= |repl| && WellEscaped(repl, 0) && |groups| > 0
  {
    && WellEscaped(repl, p) && RefsOk(repl, |groups| - 1, p) == RefsOk(repl, |groups| - 1, 0)
    && (RefsOk(repl, |groups| - 1, p) ==> Expand(repl, 0, groups) == text + Expand(repl, p, groups))
  }

  lemma ExpandingOn(repl: string, groups: seq<string>, text: string, p: nat, more: string, q: nat)
    requires p <= q <= |repl| && WellEscaped(repl, 0) && |groups| > 0 && Expanding(repl, groups, text, p)
    requires WellEscaped(repl, q) && RefsOk(repl, |groups| - 1, p) == RefsOk(repl, |groups| - 1, q)
    requires RefsOk(repl, |groups| - 1, p) ==> Expand(repl, p, groups) == more + Expand(repl, q, groups)
    ensures Expanding(repl, groups, text + more, q)
  {
    if RefsOk(repl, |groups| - 1, p) {
      Assoc(text, more, Expand(repl, q, groups));
    }
  }

  /** The inner loop: the replacement for one match, or a fatal error. */
  method Replacement(repl: string, groups: seq<string>) returns (ok: bool, text: string)
    requires WellEscaped(repl, 0) && |groups| > 0
    ensures ok <==> RefsOk(repl, |groups| - 1, 0)
    ensures ok ==> text == Expand(repl, 0, groups)
  {
    text := "";
    var p := 0;
    while p < |repl|
      invariant p <= |repl| && Expanding(repl, groups, text, p)
    {
      var q := Span(repl, p);
      EscapedPast(repl, p, q);
      RefsPast(repl, |groups| - 1, p, q);
      if RefsOk(repl, |groups| - 1, p) { ExpandPlain(repl, p, q, groups); }
      ExpandingOn(repl, groups, text, p, repl[p..q], q);
      text := text + repl[p..q];
      p := q;
      if p == |repl| { break; }
      var fine, more, next := Mark(repl, p, groups);
      if !fine { return false, text; }
      ExpandingOn(repl, groups, text, p, more, next);
      text := text + more;
      p := next;
    }
    ok := true;
  }

  // --------------------------------------------------------------- matches

  /** A match that counts, by its place in the pattern space. */
  datatype Hit = Hit(so: nat, eo: nat, groups: seq<string>)

  /** How far the loop moves on after a match; past an empty one goes one rune, or
      the rest if that is cut short. */
  function Advance(re: Regex, s: string, m: Match): (n: nat)
    requires Valid(re) && Offsets(re, s, m)
    ensures m.eo <= n <= |s| && (s != "" ==> n > 0)
  {
    assert RuneOk(re, s);
    if m.eo != 0 then m.eo else if re.runeLength(s) == 0 then |s| else re.runeLength(s)
  }

  /** The match at place i, if it counts: an empty one where the last match ended
      does not, unless that was empty too. */
  function Here(i: nat, m: Match, lastEmpty: bool): seq<Hit> {
    if lastEmpty || m.eo != 0 then [Hit(i + m.so, i + m.eo, m.groups)] else []
  }

  /** The matches that count from place i on. */
  function Hits(re: Regex, patt: string, i: nat, lastEmpty: bool, notbol: bool): seq<Hit>
    requires Valid(re) && i <= |patt|
    decreases |patt| - i
  {
    var s := patt[i..];
    match re.find(s, notbol)
    case None => []
    case Some(m) =>
      assert MatchOk(re, s, notbol);
      Here(i, m, lastEmpty) + if s == "" then [] else Hits(re, patt, i + Advance(re, s, m), m.eo == 0, true)
  }

  function AllHits(re: Regex, patt: string): seq<Hit>
    requires Valid(re)
  {
    Hits(re, patt, 0, true, false)
  }

  /** The matches to replace: occurrence 0 stands for all of them. */
  function Chosen(hits: seq<Hit>, occurrence: nat): seq<Hit> {
    if occurrence == 0 then hits
    else if |hits| < occurrence then []
    else [hits[occurrence - 1]]
  }

  /** One after the other from i on, and each with the text that stands there. */
  ghost predicate Chain(re: Regex, patt: string, hits: seq<Hit>, i: nat)
    decreases |hits|
  {
    if hits == [] then i <= |patt|
    else
      var h := hits[0];
      && i <= h.so <= h.eo <= |patt| && |h.groups| == re.nsub + 1 && h.groups[0] == patt[h.so..h.eo]
      && Chain(re, patt, hits[1..], h.eo)
  }

  /** The replacement for a match; a reference to a group that is not there ends
      the program before this is used. */
  function Text(repl: string, groups: seq<string>): string
    requires WellEscaped(repl, 0) && |groups| > 0
  {
    if RefsOk(repl, |groups| - 1, 0) then Expand(repl, 0, groups) else ""
  }

  /** The pattern space from i on, with the matches replaced. */
  function Splice(re: Regex, patt: string, repl: string, hits: seq<Hit>, i: nat): string
    requires Chain(re, patt, hits, i) && WellEscaped(repl, 0)
    decreases |hits|
  {
    if hits == [] then patt[i..]
    else
      var h := hits[0];
      patt[i..h.so] + Text(repl, h.groups) + Splice(re, patt, repl, hits[1..], h.eo)
  }

  lemma SpliceLater(re: Regex, patt: string, repl: string, hits: seq<Hit>, i: nat, n: nat)
    requires Chain(re, patt, hits, n) && WellEscaped(repl, 0) && i <= n <= |patt|
    ensures Chain(re, patt, hits, i) && Splice(re, patt, repl, hits, i) == patt[i..n] + Splice(re, patt, repl, hits, n)
  {
    if hits == [] {
      Cut(patt, i, n, |patt|);
      assert patt[i..] == patt[i..|patt|] && patt[n..] == patt[n..|patt|];
    } else {
      var h := hits[0];
      Cut(patt, i, n, h.so);
      SpliceHead(patt[i..n], patt[n..h.so], Text(repl, h.groups), Splice(re, patt, repl, hits[1..], h.eo));
    }
  }

  lemma SpliceHead(a: string, b: string, c: string, d: string)
    ensures (a + b) + c + d == a + (b + c + d)
  {
  }

  lemma AmpersandText(groups: seq<string>)
    requires |groups| > 0
    ensures WellEscaped("&", 0) && RefsOk("&", |groups| - 1, 0) && Text("&", groups) == groups[0]
  {
    assert WellEscaped("&", 1) && RefsOk("&", |groups| - 1, 1) && Expand("&", 1, groups) == "";
  }

  /** Replacing matches by what they matched changes nothing. */
  lemma {:induction false} SpliceSame(re: Regex, patt: string, hits: seq<Hit>, i: nat)
    requires Chain(re, patt, hits, i)
    ensures WellEscaped("&", 0) && Splice(re, patt, "&", hits, i) == patt[i..]
    decreases |hits|
  {
    assert WellEscaped("&", 1);
    if hits != [] {
      var h := hits[0];
      SpliceSame(re, patt, hits[1..], h.eo);
      AmpersandText(h.groups);
      assert patt[i..h.so] + patt[h.so..h.eo] + patt[h.eo..] == patt[i..];
    }
  }

  /** The matches that count never overlap. */
  lemma {:induction false} HitsChain(re: Regex, patt: string, i: nat, lastEmpty: bool, notbol: bool)
    requires Valid(re) && i <= |patt|
    ensures Chain(re, patt, Hits(re, patt, i, lastEmpty, notbol), i)
    decreases |patt| - i
  {
    var s := patt[i..];
    var r := re.find(s, notbol);
    if r.Some? {
      assert MatchOk(re, s, notbol);
      var m := r.value;
      var n := i + Advance(re, s, m);
      var rest := if s == "" then [] else Hits(re, patt, n, m.eo == 0, true);
      assert Hits(re, patt, i, lastEmpty, notbol) == Here(i, m, lastEmpty) + rest;
      if s != "" { HitsChain(re, patt, n, m.eo == 0, true); }
      HereChain(re, patt, i, m, lastEmpty, n, rest);
    }
  }

  lemma HereChain(re: Regex, patt: string, i: nat, m: Match, lastEmpty: bool, n: nat, rest: seq<Hit>)
    requires i <= |patt| && Offsets(re, patt[i..], m) && i + m.eo <= n && Chain(re, patt, rest, n)
    ensures Chain(re, patt, Here(i, m, lastEmpty) + rest, i)
  {
    ChainLater(re, patt, rest, i + m.eo, n);
    assert m.groups[0] == patt[i + m.so..i + m.eo];
    ChainHere(re, patt, Hit(i + m.so, i + m.eo, m.groups), rest, i);
  }

  lemma ChainLater(re: Regex, patt: string, hits: seq<Hit>, i: nat, n: nat)
    requires Chain(re, patt, hits, n) && i <= n
    ensures Chain(re, patt, hits, i)
  {
  }

  lemma ChainHere(re: Regex, patt: string, h: Hit, rest: seq<Hit>, i: nat)
    requires i <= h.so <= h.eo <= |patt| && |h.groups| == re.nsub + 1 && h.groups[0] == patt[h.so..h.eo]
    requires Chain(re, patt, rest, h.eo)
    ensures Chain(re, patt, [h] + rest, i) && Chain(re, patt, [] + rest, i) && [h] + [] == [h]
  {
    assert ([h] + rest)[1..] == rest && [] + rest == rest;
    ChainLater(re, patt, rest, i, h.eo);
  }

  /** One after the other from i on, each ending further on than the one before. */
  ghost predicate Advancing(hits: seq<Hit>, i: int)
    decreases |hits|
  {
    hits == [] || (hits[0].eo > i && Advancing(hits[1..], hits[0].eo))
  }

  /** Each match that counts ends further on than the one before: none counts
      right after another by being empty, and there are at most |patt| + 1. */
  lemma {:induction false} HitsAdvance(re: Regex, patt: string, i: nat, lastEmpty: bool, notbol: bool)
    requires Valid(re) && i <= |patt|
    ensures var hits := Hits(re, patt, i, lastEmpty, notbol);
            Advancing(hits, if lastEmpty then i - 1 else i) && |hits| <= |patt| - i + (if lastEmpty then 1 else 0)
    decreases |patt| - i
  {
    var s := patt[i..];
    var r := re.find(s, notbol);
    if r.Some? {
      assert MatchOk(re, s, notbol);
      var m := r.value;
      var n := i + Advance(re, s, m);
      var rest := if s == "" then [] else Hits(re, patt, n, m.eo == 0, true);
      assert Hits(re, patt, i, lastEmpty, notbol) == Here(i, m, lastEmpty) + rest;
      if s != "" { HitsAdvance(re, patt, n, m.eo == 0, true); }
      HereAdvances(i, m, lastEmpty, n, rest);
    }
  }

  lemma HereAdvances(i: nat, m: Match, lastEmpty: bool, n: nat, rest: seq<Hit>)
    requires m.so <= m.eo && i + m.eo <= n && Advancing(rest, if m.eo == 0 then n - 1 else n)
    requires m.eo == 0 ==> n > i || rest == []
    ensures Advancing(Here(i, m, lastEmpty) + rest, if lastEmpty then i - 1 else i)
  {
    AdvancingMore(rest, if m.eo == 0 then n - 1 else n, i + m.eo);
    AdvancingMore(rest, if m.eo == 0 then n - 1 else n, i);
    assert ([Hit(i + m.so, i + m.eo, m.groups)] + rest)[1..] == rest && [] + rest == rest;
  }

  lemma AdvancingMore(hits: seq<Hit>, i: int, j: int)
    requires Advancing(hits, i) && (j <= i || hits == [])
    ensures Advancing(hits, j)
  {
  }

  // ------------------------------------------------------- what is replaced

  /** Those of the remaining matches to replace when some have been counted. */
  function Remaining(hits: seq<Hit>, occurrence: nat, matches: nat): seq<Hit>
    decreases |hits|
  {
    if hits == [] then []
    else
      (if matches + 1 == occurrence || occurrence == 0 then [hits[0]] else [])
      + Remaining(hits[1..], occurrence, matches + 1)
  }

  lemma {:induction false} RemainingChain(re: Regex, patt: string, hits: seq<Hit>, i: nat, occurrence: nat,
                                          matches: nat)
    requires Chain(re, patt, hits, i)
    ensures Chain(re, patt, Remaining(hits, occurrence, matches), i)
    decreases |hits|
  {
    if hits != [] {
      RemainingChain(re, patt, hits[1..], hits[0].eo, occurrence, matches + 1);
      ChainHere(re, patt, hits[0], Remaining(hits[1..], occurrence, matches + 1), i);
    }
  }

  /** Counting on picks the right ones: all, or just the one with the number. */
  lemma {:induction false} RemainingIsChosen(hits: seq<Hit>, occurrence: nat, matches: nat)
    ensures Remaining(hits, occurrence, matches)
         == if occurrence == 0 then hits
            else if matches < occurrence <= matches + |hits| then [hits[occurrence - matches - 1]]
            else []
    decreases |hits|
  {
    if hits != [] {
      RemainingIsChosen(hits[1..], occurrence, matches + 1);
      assert [hits[0]] + hits[1..] == hits;
    }
  }

  /** The pattern space after `s`: the chosen matches replaced, everything else in
      its place. */
  function Substituted(re: Regex, patt: string, repl: string, occurrence: nat): string
    requires Valid(re) && WellEscaped(repl, 0)
  {
    ChosenChain(re, patt, occurrence);
    Splice(re, patt, repl, Chosen(AllHits(re, patt), occurrence), 0)
  }

  lemma ChosenChain(re: Regex, patt: string, occurrence: nat)
    requires Valid(re)
    ensures Chain(re, patt, Chosen(AllHits(re, patt), occurrence), 0)
    ensures Chosen(AllHits(re, patt), occurrence) == Remaining(AllHits(re, patt), occurrence, 0)
  {
    HitsChain(re, patt, 0, true, false);
    RemainingChain(re, patt, AllHits(re, patt), 0, occurrence, 0);
    RemainingIsChosen(AllHits(re, patt), occurrence, 0);
  }

  /** With replacement `&` the pattern space stays what it was, for every regular
      expression and every occurrence flag. */
  lemma AmpersandKeeps(re: Regex, patt: string, occurrence: nat)
    requires Valid(re)
    ensures WellEscaped("&", 0) && RefsOk("&", re.nsub, 0) && Substituted(re, patt, "&", occurrence) == patt
  {
    assert WellEscaped("&", 1) && RefsOk("&", re.nsub, 1);
    ChosenChain(re, patt, occurrence);
    SpliceSame(re, patt, Chosen(AllHits(re, patt), occurrence), 0);
  }

  // ------------------------------------------------------------------ loop

  /** What the loop will still find at a turn. */
  function Ahead(re: Regex, patt: string, i: nat, lastEmpty: bool, notbol: bool, qflag: bool): seq<Hit>
    requires Valid(re) && i <= |patt|
  {
    if qflag then [] else Hits(re, patt, i, lastEmpty, notbol)
  }

  lemma AheadChain(re: Regex, patt: string, i: nat, lastEmpty: bool, notbol: bool, qflag: bool)
    requires Valid(re) && i <= |patt|
    ensures Chain(re, patt, Ahead(re, patt, i, lastEmpty, notbol, qflag), i)
  {
    if !qflag { HitsChain(re, patt, i, lastEmpty, notbol); }
  }

  /** Always true.  `Looking` stays folded where nothing says this of its arguments,
      which keeps the obligations small; `LookingIff` unfolds it. */
  ghost predicate Mention(x: nat, i: nat, genbuf: string, matches: nat, ahead: seq<Hit>) { true }

  ghost predicate Looking(re: Regex, patt: string, repl: string, occurrence: nat, i: nat, genbuf: string,
                          matches: nat, ahead: seq<Hit>)
    requires Valid(re) && WellEscaped(repl, 0)
  {
    forall x: nat {:trigger Mention(x, i, genbuf, matches, ahead)} ::
      Mention(x, i, genbuf, matches, ahead) ==> Midway(re, patt, repl, occurrence, i, genbuf, matches, ahead)
  }

  /** What has been put together and what is to come make the result. */
  ghost predicate Midway(re: Regex, patt: string, repl: string, occurrence: nat, i: nat, genbuf: string, matches: nat,
                         ahead: seq<Hit>)
    requires Valid(re) && WellEscaped(repl, 0)
  {
    && Chain(re, patt, ahead, i)
    && |AllHits(re, patt)| == matches + |ahead|
    && Chain(re, patt, Remaining(ahead, occurrence, matches), i)
    && Substituted(re, patt, repl, occurrence)
    == genbuf + Splice(re, patt, repl, Remaining(ahead, occurrence, matches), i)
  }

  lemma LookingIff(re: Regex, patt: string, repl: string, occurrence: nat, i: nat, genbuf: string, matches: nat,
                   ahead: seq<Hit>)
    requires Valid(re) && WellEscaped(repl, 0)
    ensures Looking(re, patt, repl, occurrence, i, genbuf, matches, ahead)
       <==> Midway(re, patt, repl, occurrence, i, genbuf, matches, ahead)
  {
    assert Mention(0, i, genbuf, matches, ahead);
  }

  lemma LookingStart(re: Regex, patt: string, repl: string, occurrence: nat)
    requires Valid(re) && WellEscaped(repl, 0)
    ensures Looking(re, patt, repl, occurrence, 0, "", 0, AllHits(re, patt))
  {
    HitsChain(re, patt, 0, true, false);
    ChosenChain(re, patt, occurrence);
    var r := Substituted(re, patt, repl, occurrence);
    assert "" + r == r;
  }

  /** Text is copied up to n. */
  lemma LookingCopy(re: Regex, patt: string, repl: string, occurrence: nat, i: nat, genbuf: string, matches: nat,
                    ahead: seq<Hit>, n: nat)
    requires Valid(re) && WellEscaped(repl, 0) && Looking(re, patt, repl, occurrence, i, genbuf, matches, ahead)
    requires i <= n && Chain(re, patt, ahead, n)
    ensures Looking(re, patt, repl, occurrence, n, genbuf + patt[i..n], matches, ahead)
  {
    LookingIff(re, patt, repl, occurrence, i, genbuf, matches, ahead);
    var rem := Remaining(ahead, occurrence, matches);
    ChainInside(re, patt, ahead, n);
    RemainingChain(re, patt, ahead, n, occurrence, matches);
    SpliceLater(re, patt, repl, rem, i, n);
    assert genbuf + (patt[i..n] + Splice(re, patt, repl, rem, n)) ==
           (genbuf + patt[i..n]) + Splice(re, patt, repl, rem, n);
  }

  lemma {:induction false} ChainInside(re: Regex, patt: string, hits: seq<Hit>, i: nat)
    requires Chain(re, patt, hits, i)
    ensures i <= |patt|
    decreases |hits|
  {
    if hits != [] { ChainInside(re, patt, hits[1..], hits[0].eo); }
  }

  lemma RemainingPassed(h: Hit, ahead: seq<Hit>, occurrence: nat, matches: nat)
    requires matches + 1 != occurrence && occurrence != 0
    ensures Remaining([h] + ahead, occurrence, matches) == Remaining(ahead, occurrence, matches + 1)
  {
    var rem := Remaining(ahead, occurrence, matches + 1);
    assert ([h] + ahead)[1..] == ahead && [] + rem == rem;
  }

  /** The next match that counts is replaced. */
  lemma LookingReplaced(re: Regex, patt: string, repl: string, occurrence: nat, i: nat, genbuf: string, matches: nat,
                        h: Hit, ahead: seq<Hit>)
    requires Valid(re) && WellEscaped(repl, 0) && Looking(re, patt, repl, occurrence, i, genbuf, matches, [h] + ahead)
    requires matches + 1 == occurrence || occurrence == 0
    ensures i <= h.so <= h.eo <= |patt| && |h.groups| == re.nsub + 1 && matches < |AllHits(re, patt)|
    ensures Looking(re, patt, repl, occurrence, h.eo, genbuf + patt[i..h.so] + Text(repl, h.groups), matches + 1, ahead)
  {
    LookingIff(re, patt, repl, occurrence, i, genbuf, matches, [h] + ahead);
    assert ([h] + ahead)[1..] == ahead;
    var rem := Remaining(ahead, occurrence, matches + 1);
    assert ([h] + rem)[1..] == rem;
    SpliceHead(genbuf, patt[i..h.so], Text(repl, h.groups), Splice(re, patt, repl, rem, h.eo));
  }

  /** The next match that counts is passed over. */
  lemma LookingPassed(re: Regex, patt: string, repl: string, occurrence: nat, i: nat, genbuf: string, matches: nat,
                      h: Hit, ahead: seq<Hit>)
    requires Valid(re) && WellEscaped(repl, 0) && Looking(re, patt, repl, occurrence, i, genbuf, matches, [h] + ahead)
    requires matches + 1 != occurrence && occurrence != 0
    ensures i <= h.eo <= |patt| && Looking(re, patt, repl, occurrence, h.eo, genbuf + patt[i..h.eo], matches + 1, ahead)
  {
    LookingIff(re, patt, repl, occurrence, i, genbuf, matches, [h] + ahead);
    assert ([h] + ahead)[1..] == ahead;
    var rem := Remaining(ahead, occurrence, matches + 1);
    RemainingPassed(h, ahead, occurrence, matches);
    RemainingChain(re, patt, ahead, h.eo, occurrence, matches + 1);
    SpliceLater(re, patt, repl, rem, i, h.eo);
    Assoc(genbuf, patt[i..h.eo], Splice(re, patt, repl, rem, h.eo));
  }

  /** When nothing is left to be found. */
  lemma LookingDone(re: Regex, patt: string, repl: string, occurrence: nat, i: nat, genbuf: string, matches: nat)
    requires Valid(re) && WellEscaped(repl, 0) && i <= |patt| &&
             Looking(re, patt, repl, occurrence, i, genbuf, matches, [])
    ensures matches == |AllHits(re, patt)| && Substituted(re, patt, repl, occurrence) == genbuf + patt[i..]
    ensures matches == 0 || matches < occurrence ==> Substituted(re, patt, repl, occurrence) == patt
  {
    LookingIff(re, patt, repl, occurrence, i, genbuf, matches, []);
    if matches == 0 || matches < occurrence { assert patt[0..] == patt; }
  }

  /** Whether as many matches are enough for a replacement. */
  predicate Reached(occurrence: nat, matches: nat) { matches > 0 && matches >= occurrence }

  /** The substitution of one turn, at place i with match m: the new text up to the
      end of the match. */
  method Take(re: Regex, patt: string, repl: string, occurrence: nat, i: nat, m: Match, lastEmpty: bool,
              genbuf: string, matches: nat, ghost ahead: seq<Hit>) returns (ok: bool, genbuf': string, matches': nat)
    requires Valid(re) && WellEscaped(repl, 0) && i <= |patt| && Offsets(re, patt[i..], m) &&
             Chain(re, patt, ahead, i + m.eo)
    requires Looking(re, patt, repl, occurrence, i, genbuf, matches, Here(i, m, lastEmpty) + ahead)
    ensures !ok ==> !RefsOk(repl, re.nsub, 0) && Reached(occurrence, matches') && matches' <= |AllHits(re, patt)|
    ensures ok && Reached(occurrence, matches') ==> Reached(occurrence, matches) || RefsOk(repl, re.nsub, 0)
    ensures ok ==> Looking(re, patt, repl, occurrence, i + m.eo, genbuf', matches', ahead)
  {
    ok, genbuf', matches' := true, genbuf, matches;
    var counts := lastEmpty || m.eo != 0;
    if counts { matches' := matches' + 1; }
    if counts && (matches' == occurrence || occurrence == 0) {
      LookingTaken(re, patt, repl, occurrence, i, m, genbuf, matches, ahead);
      ok, genbuf' := Put(repl, m, patt[i..], genbuf);
    } else {
      LookingKept(re, patt, repl, occurrence, i, m, lastEmpty, genbuf, matches, ahead);
      genbuf' := genbuf + patt[i..][..m.eo];
    }
  }

  /** The text up to the match and its replacement are put together. */
  method Put(repl: string, m: Match, s: string, genbuf: string) returns (ok: bool, genbuf': string)
    requires WellEscaped(repl, 0) && m.so <= |s| && |m.groups| > 0
    ensures ok <==> RefsOk(repl, |m.groups| - 1, 0)
    ensures ok ==> genbuf' == genbuf + s[..m.so] + Text(repl, m.groups)
  {
    var text;
    ok, text := Replacement(repl, m.groups);
    genbuf' := genbuf + s[..m.so] + text;
  }

  /** A match that is replaced. */
  lemma LookingTaken(re: Regex, patt: string, repl: string, occurrence: nat, i: nat, m: Match,
                     genbuf: string, matches: nat, ahead: seq<Hit>)
    requires Valid(re) && WellEscaped(repl, 0) && i <= |patt| && Offsets(re, patt[i..], m)
    requires Looking(re, patt, repl, occurrence, i, genbuf, matches, [Hit(i + m.so, i + m.eo, m.groups)] + ahead)
    requires matches + 1 == occurrence || occurrence == 0
    ensures matches < |AllHits(re, patt)|
    ensures Looking(re, patt, repl, occurrence, i + m.eo, genbuf + patt[i..][..m.so] + Text(repl, m.groups),
                    matches + 1, ahead)
  {
    SliceFrom(patt, i, m.so);
    LookingReplaced(re, patt, repl, occurrence, i, genbuf, matches, Hit(i + m.so, i + m.eo, m.groups), ahead);
  }

  /** A match that is not replaced. */
  lemma LookingKept(re: Regex, patt: string, repl: string, occurrence: nat, i: nat, m: Match, lastEmpty: bool,
                    genbuf: string, matches: nat, ahead: seq<Hit>)
    requires Valid(re) && WellEscaped(repl, 0) && i <= |patt| && Offsets(re, patt[i..], m) &&
             Chain(re, patt, ahead, i + m.eo)
    requires Looking(re, patt, repl, occurrence, i, genbuf, matches, Here(i, m, lastEmpty) + ahead)
    requires Here(i, m, lastEmpty) == [] || (matches + 1 != occurrence && occurrence != 0)
    ensures Looking(re, patt, repl, occurrence, i + m.eo, genbuf + patt[i..][..m.eo],
                    matches + |Here(i, m, lastEmpty)|, ahead)
  {
    SliceFrom(patt, i, m.eo);
    if Here(i, m, lastEmpty) == [] {
      assert [] + ahead == ahead;
      LookingCopy(re, patt, repl, occurrence, i, genbuf, matches, ahead, i + m.eo);
    } else {
      LookingPassed(re, patt, repl, occurrence, i, genbuf, matches, Hit(i + m.so, i + m.eo, m.groups), ahead);
    }
  }

  /** The rest of the turn: past an empty match one rune is copied. */
  method Skip(re: Regex, patt: string, ghost repl: string, ghost occurrence: nat, i: nat, m: Match,
              genbuf: string, ghost matches: nat, ghost ahead: seq<Hit>) returns (genbuf': string, i': nat)
    requires Valid(re) && WellEscaped(repl, 0) && i <= |patt| && Offsets(re, patt[i..], m)
    requires Looking(re, patt, repl, occurrence, i + m.eo, genbuf, matches, ahead)
    requires Chain(re, patt, ahead, i + Advance(re, patt[i..], m))
    ensures i' == i + Advance(re, patt[i..], m)
    ensures Looking(re, patt, repl, occurrence, i', genbuf', matches, ahead)
  {
    var s := patt[i..];
    genbuf', i' := genbuf, i + m.eo;
    if m.eo == 0 {
      var rlen := re.runeLength(s);
      assert RuneOk(re, s);
      if rlen == 0 { rlen := |s|; }
      LookingCopy(re, patt, repl, occurrence, i, genbuf, matches, ahead, i + rlen);
      assert s[..rlen] == patt[i..i + rlen];
      genbuf' := genbuf + s[..rlen];
      i' := i + rlen;
    }
  }

  /** One turn of the loop, at place i with match m. */
  method Turn(re: Regex, patt: string, repl: string, occurrence: nat, i: nat, m: Match, lastEmpty: bool,
              ghost notbol: bool, genbuf: string, matches: nat)
    returns (ok: bool, genbuf': string, matches': nat, i': nat)
    requires Valid(re) && WellEscaped(repl, 0) && i <= |patt| && re.find(patt[i..], notbol) == Some(m)
    requires Looking(re, patt, repl, occurrence, i, genbuf, matches, Hits(re, patt, i, lastEmpty, notbol))
    ensures !ok ==> !RefsOk(repl, re.nsub, 0) && Reached(occurrence, matches') && matches' <= |AllHits(re, patt)|
    ensures ok && Reached(occurrence, matches') ==> Reached(occurrence, matches) || RefsOk(repl, re.nsub, 0)
    ensures ok ==>
              && i <= i' <= |patt| && (patt[i..] != "" ==> i < i')
              && Looking(re, patt, repl, occurrence, i', genbuf', matches',
                         Ahead(re, patt, i', m.eo == 0, true, patt[i..] == ""))
  {
    assert MatchOk(re, patt[i..], notbol);
    i' := i;
    ghost var n := i + Advance(re, patt[i..], m);
    ghost var ahead := Ahead(re, patt, n, m.eo == 0, true, patt[i..] == "");
    AheadChain(re, patt, n, m.eo == 0, true, patt[i..] == "");
    ChainLater(re, patt, ahead, i + m.eo, n);
    ok, genbuf', matches' := Take(re, patt, repl, occurrence, i, m, lastEmpty, genbuf, matches, ahead);
    if !ok { return; }
    genbuf', i' := Skip(re, patt, repl, occurrence, i, m, genbuf', matches', ahead);
  }

  /** `cmd_s` without its output: the new pattern space and whether the flag for
      `t` is set, or a fatal error when a replacement refers to a group that the
      regular expression does not have. */
  method Substitute(re: Regex, patt: string, repl: string, occurrence: nat)
    returns (ok: bool, patt': string, replaced: bool)
    requires Valid(re) && WellEscaped(repl, 0)
    ensures ok <==> Chosen(AllHits(re, patt), occurrence) == [] || RefsOk(repl, re.nsub, 0)
    ensures ok ==> replaced == (Chosen(AllHits(re, patt), occurrence) != [])
    ensures ok ==> patt' == Substituted(re, patt, repl, occurrence)
  {
    ok, patt', replaced := true, patt, false;
    var i: nat, matches: nat := 0, 0;
    var genbuf, lastEmpty, notbol, qflag := "", true, false, false;
    LookingStart(re, patt, repl, occurrence);
    var r := re.find(patt[i..], notbol);
    while !qflag && r.Some?
      invariant i <= |patt| && (!qflag ==> r == re.find(patt[i..], notbol))
      invariant Looking(re, patt, repl, occurrence, i, genbuf, matches, Ahead(re, patt, i, lastEmpty, notbol, qflag))
      invariant Reached(occurrence, matches) ==> RefsOk(repl, re.nsub, 0)
      decreases if qflag then 0 else 1, |patt| - i
    {
      var m := r.value;
      if patt[i..] == "" { qflag := true; }
      ok, genbuf, matches, i := Turn(re, patt, repl, occurrence, i, m, lastEmpty, notbol, genbuf, matches);
      if !ok { return; }
      lastEmpty, notbol := m.eo == 0, true;
      if !qflag { r := re.find(patt[i..], notbol); }
    }
    LookingDone(re, patt, repl, occurrence, i, genbuf, matches);
    if matches > 0 && matches >= occurrence {
      patt', replaced := genbuf + patt[i..], true;
    }
  }
}

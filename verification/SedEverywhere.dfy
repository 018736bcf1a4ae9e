/** What `s` makes of whole texts, for regular expressions of which the matches can
    be told: a character, a run of one character, the start of the line. */
module SedEverywhere {
  import opened Basics
  import opened SedSubst

  lemma HeadHit(h: Hit, more: seq<Hit>)
    ensures ([h] + more)[0] == h && ([h] + more)[1..] == more && [] + more == more
  {
  }

  lemma TailFrom(s: string, i: nat, n: nat)
    requires i + n <= |s|
    ensures s[i..][n..] == s[i + n..]
  {
  }

  /** Putting together around the next match. */
  lemma SpliceNext(re: Regex, patt: string, repl: string, h: Hit, more: seq<Hit>, i: nat)
    requires WellEscaped(repl, 0) && Chain(re, patt, more, h.eo)
    requires i <= h.so <= h.eo <= |patt| && |h.groups| == re.nsub + 1 && h.groups[0] == patt[h.so..h.eo]
    ensures Chain(re, patt, [h] + more, i)
    ensures Splice(re, patt, repl, [h] + more, i)
         == patt[i..h.so] + Text(repl, h.groups) + Splice(re, patt, repl, more, h.eo)
  {
    HeadHit(h, more);
  }

  // ------------------------------------------------------------ characters

  /** Where c first stands. */
  function Place(c: char, s: string): (n: nat)
    ensures n <= |s| && (n < |s| ==> s[n] == c)
  {
    if s == "" || s[0] == c then 0 else 1 + Place(c, s[1..])
  }

  /** The expression is the character c. */
  ghost predicate IsChar(re: Regex, c: char) {
    Valid(re) && re.nsub == 0 && forall s, notbol {:trigger FindsChar(re, c, s, notbol)} :: FindsChar(re, c, s, notbol)
  }

  ghost predicate FindsChar(re: Regex, c: char, s: string, notbol: bool) {
    re.find(s, notbol) == if Place(c, s) < |s| then Some(Match(Place(c, s), Place(c, s) + 1, [[c]])) else None
  }

  /** The text with c replaced: everywhere for occurrence 0, else where it stands for
      the time numbered so, if it has been seen already as often as told. */
  function CharsReplaced(s: string, c: char, text: string, occurrence: nat, already: nat): string {
    if s == "" then ""
    else if s[0] != c then [s[0]] + CharsReplaced(s[1..], c, text, occurrence, already)
    else
      (if occurrence == 0 || already + 1 == occurrence then text else [c])
      + CharsReplaced(s[1..], c, text, occurrence, already + 1)
  }

  /** Up to the first c nothing is replaced. */
  lemma {:induction false} CharsBefore(s: string, c: char, text: string, occurrence: nat, already: nat)
    ensures CharsReplaced(s, c, text, occurrence, already)
         == s[..Place(c, s)] + CharsReplaced(s[Place(c, s)..], c, text, occurrence, already)
    decreases |s|
  {
    var n := Place(c, s);
    if n == 0 {
      assert s[..0] == "" && s[0..] == s;
    } else {
      CharsBefore(s[1..], c, text, occurrence, already);
      assert s[..n] == [s[0]] + s[1..][..n - 1] && s[1..][n - 1..] == s[n..];
      Assoc([s[0]], s[1..][..n - 1], CharsReplaced(s[n..], c, text, occurrence, already));
    }
  }

  lemma CharNext(s: string, c: char, text: string, occurrence: nat, already: nat, n: nat)
    requires n < |s| && n == Place(c, s)
    ensures CharsReplaced(s, c, text, occurrence, already)
         == s[..n] + (if occurrence == 0 || already + 1 == occurrence then text else [c])
            + CharsReplaced(s[n + 1..], c, text, occurrence, already + 1)
  {
    CharsBefore(s, c, text, occurrence, already);
    assert s[n..][0] == c && s[n..][1..] == s[n + 1..];
    var here := if occurrence == 0 || already + 1 == occurrence then text else [c];
    Assoc(s[..n], here, CharsReplaced(s[n + 1..], c, text, occurrence, already + 1));
  }

  // --------------------------------------------------------------- matches

  /** The matches from i on, one step that ends at n. */
  lemma HitsStep(re: Regex, patt: string, i: nat, lastEmpty: bool, notbol: bool, m: Match, n: nat, empty: bool)
    requires Valid(re) && i <= |patt| && re.find(patt[i..], notbol) == Some(m)
    requires empty == (m.eo == 0) && Offsets(re, patt[i..], m) && n == i + Advance(re, patt[i..], m)
    ensures Hits(re, patt, i, lastEmpty, notbol)
         == Here(i, m, lastEmpty) + if i == |patt| then [] else Hits(re, patt, n, empty, true)
  {
  }

  lemma Found(re: Regex, s: string, notbol: bool, m: Match)
    requires Valid(re) && re.find(s, notbol) == Some(m)
    ensures Offsets(re, s, m)
    ensures Advance(re, s, m) ==
            if m.eo != 0 then m.eo else if re.runeLength(s) == 0 then |s| else re.runeLength(s)
  {
    assert MatchOk(re, s, notbol);
  }

  /** Always true; it keeps `AreHits` folded where nothing says this of its arguments. */
  ghost predicate Mention(x: nat, i: nat, hits: seq<Hit>) { true }

  ghost predicate AreHits(re: Regex, patt: string, i: nat, lastEmpty: bool, notbol: bool, hits: seq<Hit>) {
    && Valid(re) && i <= |patt|
    && forall x: nat {:trigger Mention(x, i, hits)} ::
         Mention(x, i, hits) ==> hits == Hits(re, patt, i, lastEmpty, notbol)
  }

  lemma NoHits(re: Regex, patt: string, i: nat, lastEmpty: bool, notbol: bool)
    requires Valid(re) && i <= |patt| && re.find(patt[i..], notbol) == None
    ensures AreHits(re, patt, i, lastEmpty, notbol, [])
  {
  }

  lemma HitsNext(re: Regex, patt: string, i: nat, lastEmpty: bool, notbol: bool, h: Hit, n: nat)
    requires Valid(re) && n <= |patt| && i <= h.so && i < h.eo == n
    requires re.find(patt[i..], notbol) == Some(Match(h.so - i, n - i, h.groups))
    ensures Hits(re, patt, i, lastEmpty, notbol) == [h] + Hits(re, patt, n, false, true)
  {
    var m := Match(h.so - i, n - i, h.groups);
    Found(re, patt[i..], notbol, m);
    assert Here(i, m, lastEmpty) == [h];
    HitsStep(re, patt, i, lastEmpty, notbol, m, n, false);
  }

  /** The next match is not empty and ends at n. */
  lemma NextHit(re: Regex, patt: string, i: nat, lastEmpty: bool, notbol: bool, h: Hit, n: nat, more: seq<Hit>)
    requires AreHits(re, patt, n, false, true, more) && i <= h.so && i < h.eo == n
    requires re.find(patt[i..], notbol) == Some(Match(h.so - i, n - i, h.groups))
    ensures AreHits(re, patt, i, lastEmpty, notbol, [h] + more)
  {
    assert Mention(0, n, more);
    HitsNext(re, patt, i, lastEmpty, notbol, h, n);
  }

  // ---------------------------------------------------------- put together

  /** What is put together from i on, when so many matches have been counted.  Folded
      like `AreHits`. */
  ghost predicate Makes(re: Regex, patt: string, repl: string, occurrence: nat, already: nat, hits: seq<Hit>, i: nat,
                        made: string) {
    && WellEscaped(repl, 0) && i <= |patt|
    && forall x: nat {:trigger Mention(x, i, hits)} ::
         Mention(x, i, hits) ==>
           var rest := Remaining(hits, occurrence, already);
           Chain(re, patt, rest, i) && Splice(re, patt, repl, rest, i) == made
  }

  lemma MakesRest(re: Regex, patt: string, repl: string, occurrence: nat, already: nat, i: nat)
    requires WellEscaped(repl, 0) && i <= |patt|
    ensures Makes(re, patt, repl, occurrence, already, [], i, patt[i..])
  {
  }

  lemma RemainingNext(h: Hit, more: seq<Hit>, occurrence: nat, already: nat)
    ensures Remaining([h] + more, occurrence, already)
         == (if occurrence == 0 || already + 1 == occurrence then [h] else [])
            + Remaining(more, occurrence, already + 1)
  {
    HeadHit(h, more);
  }

  /** What comes of the text before the next c and of that. */
  lemma CharStands(patt: string, c: char, text: string, occurrence: nat, i: nat, n: nat, already: nat)
    requires i + n < |patt| && n == Place(c, patt[i..])
    ensures patt[i + n..i + n + 1] == [c]
    ensures var made := CharsReplaced(patt[i + n + 1..], c, text, occurrence, already + 1);
            CharsReplaced(patt[i..], c, text, occurrence, already)
            == if occurrence == 0 || already + 1 == occurrence then patt[i..i + n] + text + made
               else patt[i..i + n + 1] + made
  {
    CharNext(patt[i..], c, text, occurrence, already, n);
    TailFrom(patt, i, n + 1);
    SliceFrom(patt, i, n);
    assert patt[i..][n] == c && patt[i..i + n + 1] == patt[i..i + n] + [c];
  }

  /** The next match is replaced or left, given what is made of the rest. */
  lemma MakesNext(re: Regex, patt: string, repl: string, occurrence: nat, already: nat, h: Hit, more: seq<Hit>,
                  i: nat, made: string)
    requires Makes(re, patt, repl, occurrence, already + 1, more, h.eo, made)
    requires i <= h.so <= h.eo && |h.groups| == re.nsub + 1 && h.groups[0] == patt[h.so..h.eo]
    ensures Makes(re, patt, repl, occurrence, already, [h] + more, i,
                  if occurrence == 0 || already + 1 == occurrence then patt[i..h.so] + Text(repl, h.groups) + made
                  else patt[i..h.eo] + made)
  {
    assert Mention(0, h.eo, more);
    var rest := Remaining(more, occurrence, already + 1);
    RemainingNext(h, more, occurrence, already);
    if occurrence == 0 || already + 1 == occurrence {
      SpliceNext(re, patt, repl, h, rest, i);
    } else {
      assert [] + rest == rest;
      SpliceLater(re, patt, repl, rest, i, h.eo);
    }
  }

  lemma {:induction false} CharHits(re: Regex, c: char, patt: string, repl: string, occurrence: nat, already: nat,
                                    i: nat, lastEmpty: bool, notbol: bool)
    returns (hits: seq<Hit>)
    requires IsChar(re, c) && WellEscaped(repl, 0) && i <= |patt|
    ensures AreHits(re, patt, i, lastEmpty, notbol, hits)
    ensures Makes(re, patt, repl, occurrence, already, hits, i,
                  CharsReplaced(patt[i..], c, Text(repl, [[c]]), occurrence, already))
    decreases |patt| - i
  {
    var n, text := Place(c, patt[i..]), Text(repl, [[c]]);
    assert FindsChar(re, c, patt[i..], notbol);
    if i + n == |patt| {
      NoHits(re, patt, i, lastEmpty, notbol);
      NoChar(patt[i..], c, text, occurrence, already);
      MakesRest(re, patt, repl, occurrence, already, i);
      hits := [];
    } else {
      var h := Hit(i + n, i + n + 1, [[c]]);
      var more := CharHits(re, c, patt, repl, occurrence, already + 1, i + n + 1, false, true);
      NextHit(re, patt, i, lastEmpty, notbol, h, i + n + 1, more);
      CharStands(patt, c, text, occurrence, i, n, already);
      MakesNext(re, patt, repl, occurrence, already, h, more, i,
                CharsReplaced(patt[i + n + 1..], c, text, occurrence, already + 1));
      hits := [h] + more;
    }
  }

  lemma NoChar(s: string, c: char, text: string, occurrence: nat, already: nat)
    requires Place(c, s) == |s|
    ensures CharsReplaced(s, c, text, occurrence, already) == s
  {
    CharsBefore(s, c, text, occurrence, already);
    assert s[..|s|] == s && s[|s|..] == "" && s + "" == s;
  }

  /** `s/c/text/g` replaces every c, `s/c/text/n` the n-th one, and nothing else. */
  lemma ReplacesCharacter(re: Regex, c: char, patt: string, repl: string, occurrence: nat)
    requires IsChar(re, c) && WellEscaped(repl, 0)
    ensures Substituted(re, patt, repl, occurrence)
         == CharsReplaced(patt, c, Text(repl, [[c]]), occurrence, 0)
  {
    ChosenChain(re, patt, occurrence);
    var hits := CharHits(re, c, patt, repl, occurrence, 0, 0, true, false);
    assert Mention(0, 0, hits);
    assert patt[0..] == patt;
  }

  // ----------------------------------------------------------------- runs

  /** How often c stands at the start. */
  function Lead(c: char, s: string): (n: nat)
    ensures n <= |s|
  {
    if s == "" || s[0] != c then 0 else 1 + Lead(c, s[1..])
  }

  /** The expression is `c*`, on text of one-byte characters. */
  ghost predicate IsStar(re: Regex, c: char) {
    Valid(re) && re.nsub == 0 && forall s, notbol {:trigger FindsRun(re, c, s, notbol)} :: FindsRun(re, c, s, notbol)
  }

  ghost predicate FindsRun(re: Regex, c: char, s: string, notbol: bool) {
    && re.find(s, notbol) == Some(Match(0, Lead(c, s), [s[..Lead(c, s)]]))
    && re.runeLength(s) == if s == "" then 0 else 1
  }

  /** Each run is replaced, and the empty text wherever there is no run at all: not
      right behind one. */
  function RunsReplaced(s: string, c: char, repl: string, occurrence: nat, already: nat, behind: bool): string
    requires WellEscaped(repl, 0)
    decreases |s|
  {
    var n := Lead(c, s);
    var chosen := occurrence == 0 || already + 1 == occurrence;
    if n > 0 then
      (if chosen then Text(repl, [s[..n]]) else s[..n]) + RunsReplaced(s[n..], c, repl, occurrence, already + 1, true)
    else
      var here := if chosen && !behind then Text(repl, [""]) else "";
      var seen := if behind then already else already + 1;
      here + if s == "" then "" else [s[0]] + RunsReplaced(s[1..], c, repl, occurrence, seen, false)
  }

  /** What is copied after an empty match: a rune, or a cut one. */
  function Rune(re: Regex, s: string): nat { if re.runeLength(s) == 0 then |s| else re.runeLength(s) }

  /** The next match is empty. */
  lemma EmptyHit(re: Regex, patt: string, i: nat, lastEmpty: bool, notbol: bool, h: Hit, n: nat, more: seq<Hit>)
    requires Valid(re) && i <= |patt| && re.find(patt[i..], notbol) == Some(Match(0, 0, h.groups)) && h.so == h.eo == i
    requires if i == |patt| then more == []
             else AreHits(re, patt, n, true, true, more) && n - i == Rune(re, patt[i..])
    ensures AreHits(re, patt, i, lastEmpty, notbol, if lastEmpty then [h] + more else more)
  {
    var m := Match(0, 0, h.groups);
    assert Here(i, m, lastEmpty) == if lastEmpty then [h] else [];
    Found(re, patt[i..], notbol, m);
    if i < |patt| {
      assert Mention(0, n, more);
      HitsStep(re, patt, i, lastEmpty, notbol, m, n, true);
    } else {
      HitsStep(re, patt, i, lastEmpty, notbol, m, i + Advance(re, patt[i..], m), true);
    }
  }

  lemma MakesSame(re: Regex, patt: string, repl: string, occurrence: nat, already: nat, hits: seq<Hit>, i: nat, n: nat,
                  made: string)
    requires Makes(re, patt, repl, occurrence, already, hits, n, made) && i <= n
    ensures Makes(re, patt, repl, occurrence, already, hits, i, patt[i..n] + made)
  {
    assert Mention(0, n, hits);
    SpliceLater(re, patt, repl, Remaining(hits, occurrence, already), i, n);
  }

  lemma RunStands(patt: string, c: char, repl: string, occurrence: nat, already: nat, behind: bool, i: nat, n: nat)
    requires WellEscaped(repl, 0) && i + n <= |patt| && n == Lead(c, patt[i..]) && n > 0
    ensures patt[i..][..n] == patt[i..i + n]
    ensures RunsReplaced(patt[i..], c, repl, occurrence, already, behind)
         == (if occurrence == 0 || already + 1 == occurrence then patt[i..i] + Text(repl, [patt[i..i + n]])
             else patt[i..i + n])
            + RunsReplaced(patt[i + n..], c, repl, occurrence, already + 1, true)
  {
    TailFrom(patt, i, n);
    SliceFrom(patt, i, n);
    assert patt[i..i] + Text(repl, [patt[i..i + n]]) == Text(repl, [patt[i..i + n]]);
  }

  lemma NoRunStands(patt: string, c: char, repl: string, occurrence: nat, already: nat, behind: bool, i: nat)
    requires WellEscaped(repl, 0) && i < |patt| && 0 == Lead(c, patt[i..])
    ensures var made := patt[i..i + 1] + RunsReplaced(patt[i + 1..], c, repl, occurrence,
                                                      if behind then already else already + 1, false);
            RunsReplaced(patt[i..], c, repl, occurrence, already, behind)
            == if !behind && (occurrence == 0 || already + 1 == occurrence)
               then patt[i..i] + Text(repl, [""]) + made else made
  {
    TailFrom(patt, i, 1);
    var made := patt[i..i + 1] + RunsReplaced(patt[i + 1..], c, repl, occurrence,
                                              if behind then already else already + 1, false);
    assert patt[i..i + 1] == [patt[i..][0]];
    assert "" + made == made && patt[i..i] + Text(repl, [""]) == Text(repl, [""]);
  }

  lemma {:induction false} StarHits(re: Regex, c: char, patt: string, repl: string, occurrence: nat, already: nat,
                                    i: nat, lastEmpty: bool, notbol: bool)
    returns (hits: seq<Hit>)
    requires IsStar(re, c) && WellEscaped(repl, 0) && i <= |patt|
    ensures AreHits(re, patt, i, lastEmpty, notbol, hits)
    ensures Makes(re, patt, repl, occurrence, already, hits, i,
                  RunsReplaced(patt[i..], c, repl, occurrence, already, !lastEmpty))
    decreases |patt| - i
  {
    var n := Lead(c, patt[i..]);
    assert FindsRun(re, c, patt[i..], notbol);
    if n > 0 {
      var more := StarHits(re, c, patt, repl, occurrence, already + 1, i + n, false, true);
      hits := RunStar(re, c, patt, repl, occurrence, already, i, n, lastEmpty, notbol, more);
    } else if i == |patt| {
      hits := LastStar(re, c, patt, repl, occurrence, already, lastEmpty, notbol);
    } else {
      var seen := if lastEmpty then already + 1 else already;
      var more := StarHits(re, c, patt, repl, occurrence, seen, i + 1, true, true);
      hits := EmptyStar(re, c, patt, repl, occurrence, already, i, lastEmpty, notbol, more);
    }
  }

  lemma RunStar(re: Regex, c: char, patt: string, repl: string, occurrence: nat, already: nat, i: nat, n: nat,
                lastEmpty: bool, notbol: bool, more: seq<Hit>)
    returns (hits: seq<Hit>)
    requires Valid(re) && re.nsub == 0 && WellEscaped(repl, 0) && i + n <= |patt| && n == Lead(c, patt[i..]) && n > 0
    requires re.find(patt[i..], notbol) == Some(Match(0, n, [patt[i..][..n]]))
    requires AreHits(re, patt, i + n, false, true, more)
    requires Makes(re, patt, repl, occurrence, already + 1, more, i + n,
                   RunsReplaced(patt[i + n..], c, repl, occurrence, already + 1, true))
    ensures AreHits(re, patt, i, lastEmpty, notbol, hits)
    ensures Makes(re, patt, repl, occurrence, already, hits, i,
                  RunsReplaced(patt[i..], c, repl, occurrence, already, !lastEmpty))
  {
    RunStands(patt, c, repl, occurrence, already, !lastEmpty, i, n);
    var h := Hit(i, i + n, [patt[i..i + n]]);
    NextHit(re, patt, i, lastEmpty, notbol, h, i + n, more);
    MakesNext(re, patt, repl, occurrence, already, h, more, i,
              RunsReplaced(patt[i + n..], c, repl, occurrence, already + 1, true));
    hits := [h] + more;
  }

  lemma LastStar(re: Regex, c: char, patt: string, repl: string, occurrence: nat, already: nat, lastEmpty: bool,
                 notbol: bool)
    returns (hits: seq<Hit>)
    requires Valid(re) && re.nsub == 0 && WellEscaped(repl, 0)
    requires re.find(patt[|patt|..], notbol) == Some(Match(0, 0, [""]))
    ensures AreHits(re, patt, |patt|, lastEmpty, notbol, hits)
    ensures Makes(re, patt, repl, occurrence, already, hits, |patt|,
                  RunsReplaced("", c, repl, occurrence, already, !lastEmpty))
  {
    var i := |patt|;
    var h := Hit(i, i, [""]);
    EmptyHit(re, patt, i, lastEmpty, notbol, h, i, []);
    hits := if lastEmpty then [h] + [] else [];
    MakesRest(re, patt, repl, occurrence, already, i);
    if lastEmpty {
      MakesRest(re, patt, repl, occurrence, already + 1, i);
      MakesNext(re, patt, repl, occurrence, already, h, [], i, "");
    }
    assert patt[i..i] + Text(repl, [""]) + "" == Text(repl, [""]) + "" && patt[i..i] + "" == "" + "";
  }

  lemma EmptyStar(re: Regex, c: char, patt: string, repl: string, occurrence: nat, already: nat, i: nat,
                  lastEmpty: bool, notbol: bool, more: seq<Hit>)
    returns (hits: seq<Hit>)
    requires Valid(re) && re.nsub == 0 && WellEscaped(repl, 0) && i < |patt| && Lead(c, patt[i..]) == 0
    requires re.find(patt[i..], notbol) == Some(Match(0, 0, [""])) && re.runeLength(patt[i..]) == 1
    requires AreHits(re, patt, i + 1, true, true, more)
    requires var seen := if lastEmpty then already + 1 else already;
             Makes(re, patt, repl, occurrence, seen, more, i + 1,
                   RunsReplaced(patt[i + 1..], c, repl, occurrence, seen, false))
    ensures AreHits(re, patt, i, lastEmpty, notbol, hits)
    ensures Makes(re, patt, repl, occurrence, already, hits, i,
                  RunsReplaced(patt[i..], c, repl, occurrence, already, !lastEmpty))
  {
    var h := Hit(i, i, [""]);
    var seen := if lastEmpty then already + 1 else already;
    var made := RunsReplaced(patt[i + 1..], c, repl, occurrence, seen, false);
    EmptyHit(re, patt, i, lastEmpty, notbol, h, i + 1, more);
    NoRunStands(patt, c, repl, occurrence, already, !lastEmpty, i);
    MakesSame(re, patt, repl, occurrence, seen, more, i, i + 1, made);
    hits := if lastEmpty then [h] + more else more;
    if lastEmpty {
      MakesNext(re, patt, repl, occurrence, already, h, more, i, patt[i..i + 1] + made);
      assert patt[i..i] + (patt[i..i + 1] + made) == patt[i..i + 1] + made;
    }
  }

  // `s/c*/text/g` replaces every run of c, and puts the text at every place that no run
  // touches; a number picks one of these.
  lemma ReplacesRuns(re: Regex, c: char, patt: string, repl: string, occurrence: nat)
    requires IsStar(re, c) && WellEscaped(repl, 0)
    ensures Substituted(re, patt, repl, occurrence) == RunsReplaced(patt, c, repl, occurrence, 0, false)
  {
    ChosenChain(re, patt, occurrence);
    var hits := StarHits(re, c, patt, repl, occurrence, 0, 0, true, false);
    assert Mention(0, 0, hits);
    assert patt[0..] == patt;
  }

  // ---------------------------------------------------------------- anchors

  /** The expression is `^`. */
  ghost predicate IsStart(re: Regex) {
    && Valid(re) && re.nsub == 0
    && forall s, notbol {:trigger FindsStart(re, s, notbol)} :: FindsStart(re, s, notbol)
  }

  ghost predicate FindsStart(re: Regex, s: string, notbol: bool) {
    re.find(s, notbol) == (if notbol then None else Some(Match(0, 0, [""])))
  }

  /** `s/^/text/`, with or without `g`, puts the text before the line and nowhere else. */
  lemma ReplacesStart(re: Regex, patt: string, repl: string, occurrence: nat)
    requires IsStart(re) && WellEscaped(repl, 0)
    ensures Substituted(re, patt, repl, occurrence) == if occurrence <= 1 then Text(repl, [""]) + patt else patt
  {
    ChosenChain(re, patt, occurrence);
    assert FindsStart(re, patt, false) && patt[0..] == patt;
    var h := Hit(0, 0, [""]);
    var hits := StartHits(re, patt, h);
    assert Mention(0, 0, hits);
    MakesRest(re, patt, repl, occurrence, 1, 0);
    MakesNext(re, patt, repl, occurrence, 0, h, [], 0, patt);
    assert patt[0..0] + Text(repl, [""]) + patt == Text(repl, [""]) + patt && patt[0..0] + patt == patt;
  }

  lemma StartHits(re: Regex, patt: string, h: Hit) returns (hits: seq<Hit>)
    requires IsStart(re) && h == Hit(0, 0, [""])
    ensures hits == [h] + [] && AreHits(re, patt, 0, true, false, hits)
  {
    hits := [h] + [];
    assert FindsStart(re, patt[0..], false);
    if patt == "" {
      EmptyHit(re, patt, 0, true, false, h, 0, []);
    } else {
      Found(re, patt[0..], false, Match(0, 0, [""]));
      var n := Advance(re, patt[0..], Match(0, 0, [""]));
      assert FindsStart(re, patt[n..], true) && n - 0 == Rune(re, patt[0..]);
      NoHits(re, patt, n, true, true);
      EmptyHit(re, patt, 0, true, false, h, n, []);
    }
  }
}

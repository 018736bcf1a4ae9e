/** tsort: loading a graph from pairs of names into sorted adjacency lists, and
    printing it by a depth-first visit driven by counts of unread in-edges. */
module Tsort {
  import opened StringOrder

  datatype Colour = White | Grey | Black

  /** Adjacency lists. */
  type Adj = map<string, seq<string>>

  ghost predicate Edge(g: Adj, u: string, v: string) { u in g && v in g[u] }

  ghost predicate Distinct(s: seq<string>) {
    forall i, j :: 0 <= i < j < |s| ==> s[i] != s[j]
  }

  /** Every edge leads to another vertex of the graph and is listed once. */
  ghost predicate WellFormed(g: Adj) {
    && (forall u, v :: Edge(g, u, v) ==> v in g && v != u)
    && forall u :: u in g ==> Distinct(g[u])
  }

  ghost predicate IsPath(g: Adj, p: seq<string>) {
    forall i :: 0 <= i < |p| - 1 ==> Edge(g, p[i], p[i + 1])
  }

  ghost predicate IsCycle(g: Adj, p: seq<string>) {
    |p| >= 2 && IsPath(g, p) && p[0] == p[|p| - 1]
  }

  ghost predicate Cyclic(g: Adj) { exists p :: IsCycle(g, p) }

  /** From position k on, every vertex is preceded by all its sources. */
  ghost predicate OrderedFrom(g: Adj, out: seq<string>, k: nat) {
    forall i, s :: k <= i < |out| && Edge(g, s, out[i]) ==> s in out[..i]
  }

  /** What the visit changes: the counters, the colours, the edges followed so
      far, the names printed and the loops reported. */
  datatype Progress = Progress(
    inEdges: map<string, int>,
    colour: map<string, Colour>,
    followed: set<(string, string)>,
    out: seq<string>,
    reports: seq<(string, string)>)

  /** Sources of v whose edge to v has not been followed. */
  ghost function Waiting(g: Adj, followed: set<(string, string)>, v: string): set<string> {
    set u | u in g && v in g[u] && (u, v) !in followed
  }

  /** The counter of a white vertex counts its unfollowed in-edges; only printed
      vertices had edges followed, finished ones had all of them; the printed
      vertices are those not white, each once. */
  ghost predicate Inv(g: Adj, s: Progress) {
    && WellFormed(g)
    && s.colour.Keys == g.Keys && s.inEdges.Keys == g.Keys
    && (forall v :: v in g && s.colour[v] == White ==> s.inEdges[v] == |Waiting(g, s.followed, v)|)
    && (forall u, v :: (u, v) in s.followed ==> u in g && s.colour[u] != White)
    && (forall u, v :: Edge(g, u, v) && s.colour[u] == Black ==> (u, v) in s.followed)
    && (forall v :: v in s.out <==> v in g && s.colour[v] != White)
    && Distinct(s.out)
  }

  ghost function Whites(s: Progress): set<string> {
    set v | v in s.colour && s.colour[v] == White
  }

  /** Vertices that nothing holds back any more. */
  ghost predicate Free(g: Adj, s: Progress, v: string) {
    v in s.colour && s.colour[v] == White && Waiting(g, s.followed, v) == {}
  }

  ghost predicate RealCycle(g: Adj, u: string, v: string) {
    exists p :: |p| >= 1 && IsPath(g, p) && p[0] == v && p[|p| - 1] == u && Edge(g, u, v)
  }

  lemma RealCycleIsCycle(g: Adj, u: string, v: string)
    requires RealCycle(g, u, v)
    ensures Cyclic(g)
  {
    var p :| |p| >= 1 && IsPath(g, p) && p[0] == v && p[|p| - 1] == u && Edge(g, u, v);
    var c := p + [v];
    assert IsCycle(g, c);
  }

  // ------------------------------------------------------- single changes

  ghost function Opened(s: Progress, u: string): Progress
    requires u in s.colour
  {
    s.(colour := s.colour[u := Grey], out := s.out + [u])
  }

  ghost function Closed(s: Progress, u: string): Progress
    requires u in s.colour
  {
    s.(colour := s.colour[u := Black])
  }

  ghost function Followed(s: Progress, u: string, v: string): Progress
    requires v in s.colour && v in s.inEdges
  {
    s.(followed := s.followed + {(u, v)},
       inEdges := if s.colour[v] == White then s.inEdges[v := s.inEdges[v] - 1] else s.inEdges)
  }

  lemma OpenKeeps(g: Adj, s: Progress, u: string)
    requires Inv(g, s) && u in g && s.colour[u] == White
    ensures Inv(g, Opened(s, u))
    ensures forall v :: (u, v) !in s.followed
  {
  }

  lemma CloseKeeps(g: Adj, s: Progress, u: string)
    requires Inv(g, s) && u in g && s.colour[u] == Grey
    requires forall v :: v in g[u] ==> (u, v) in s.followed
    ensures Inv(g, Closed(s, u))
  {
  }

  lemma WaitingFollowed(g: Adj, f: set<(string, string)>, u: string, v: string)
    requires Edge(g, u, v) && (u, v) !in f
    ensures Waiting(g, f, v) == Waiting(g, f + {(u, v)}, v) + {u}
    ensures |Waiting(g, f + {(u, v)}, v)| == |Waiting(g, f, v)| - 1
    ensures forall w :: w != v ==> Waiting(g, f + {(u, v)}, w) == Waiting(g, f, w)
  {
  }

  lemma FollowKeeps(g: Adj, s: Progress, u: string, v: string)
    requires Inv(g, s) && Edge(g, u, v) && (u, v) !in s.followed && s.colour[u] == Grey
    ensures Inv(g, Followed(s, u, v))
    ensures s.colour[v] == White ==> s.inEdges[v] >= 1
    ensures forall w :: Free(g, Followed(s, u, v), w) ==> Free(g, s, w) || w == v
  {
    WaitingFollowed(g, s.followed, u, v);
  }

  // ------------------------------------------------------------ the visit

  function Col(s: Progress, v: string): Colour {
    if v in s.colour then s.colour[v] else Black
  }

  /** Between s0 and s1 whites were visited to the end and nothing else changed
      colour; u itself is not looked at. */
  ghost predicate Recoloured(s0: Progress, s1: Progress, u: string) {
    && s0.colour.Keys == s1.colour.Keys
    && forall v :: v != u ==> (if Col(s0, v) != White then Col(s1, v) == Col(s0, v) else Col(s1, v) != Grey)
  }

  /** u was printed first, and every vertex after it follows its sources. */
  ghost predicate Printed(g: Adj, s0: Progress, s1: Progress, u: string) {
    s0.out + [u] <= s1.out && OrderedFrom(g, s1.out, |s0.out| + 1)
  }

  /** Only edges of vertices visited meanwhile were followed. */
  ghost predicate FollowedMore(s0: Progress, s1: Progress) {
    && s0.followed <= s1.followed
    && forall a, b :: (a, b) in s1.followed && (a, b) !in s0.followed ==> Col(s0, a) == White
  }

  /** No vertex was freed and left white. */
  ghost predicate NoneLeftFree(g: Adj, s0: Progress, s1: Progress) {
    forall v :: Free(g, s1, v) ==> Free(g, s0, v)
  }

  /** New reports name real cycles, and there are new ones exactly if r. */
  ghost predicate ReportsGrow(g: Adj, s0: Progress, s1: Progress, r: bool) {
    && s0.reports <= s1.reports
    && (r <==> |s1.reports| > |s0.reports|)
    && forall i :: |s0.reports| <= i < |s1.reports| ==> RealCycle(g, s1.reports[i].0, s1.reports[i].1)
  }

  /** No vertex finished meanwhile has an edge to the stack of s0 or to u. */
  ghost predicate NoBackEdge(g: Adj, s0: Progress, s1: Progress, u: string) {
    forall w, v :: Edge(g, w, v) && Col(s0, w) == White && Col(s1, w) == Black ==> Col(s0, v) != Grey && v != u
  }

  /** What visiting u achieves, from s0 to s1; r says whether a loop was met. */
  ghost predicate Visited(g: Adj, s0: Progress, s1: Progress, u: string, r: bool) {
    && Inv(g, s1) && u in g
    && Col(s0, u) == White && Col(s1, u) == Black && Recoloured(s0, s1, u)
    && Printed(g, s0, s1, u) && FollowedMore(s0, s1) && NoneLeftFree(g, s0, s1)
    && ReportsGrow(g, s0, s1, r) && (!r ==> NoBackEdge(g, s0, s1, u))
  }

  /** The row of u: its first i edges are the ones followed. */
  ghost predicate Row(g: Adj, s0: Progress, s1: Progress, u: string, i: nat, r: bool) {
    && u in g && i <= |g[u]|
    && (forall v :: (u, v) in s1.followed <==> v in g[u][..i])
    && (!r ==> forall v :: v in g[u][..i] ==> Col(s0, v) != Grey)
  }

  /** The same part-way: u is on the stack and its first i edges are done. */
  ghost predicate Visiting(g: Adj, s0: Progress, s1: Progress, u: string, i: nat, r: bool) {
    && Inv(g, s1) && Row(g, s0, s1, u, i, r)
    && Col(s0, u) == White && Col(s1, u) == Grey && Recoloured(s0, s1, u)
    && Printed(g, s0, s1, u) && FollowedMore(s0, s1) && NoneLeftFree(g, s0, s1)
    && ReportsGrow(g, s0, s1, r) && (!r ==> NoBackEdge(g, s0, s1, u))
  }

  lemma VisitStart(g: Adj, s0: Progress, u: string)
    requires Inv(g, s0) && u in g && s0.colour[u] == White
    ensures Visiting(g, s0, Opened(s0, u), u, 0, false)
  {
    OpenKeeps(g, s0, u);
  }

  lemma VisitEnd(g: Adj, s0: Progress, s1: Progress, u: string, r: bool)
    requires u in g && Visiting(g, s0, s1, u, |g[u]|, r)
    ensures Visited(g, s0, Closed(s1, u), u, r)
  {
    assert g[u][..|g[u]|] == g[u];
    CloseKeeps(g, s1, u);
  }

  lemma NextEdge(g: Adj, s0: Progress, s1: Progress, u: string, i: nat, r: bool)
    requires Inv(g, s1) && Row(g, s0, s1, u, i, r) && i < |g[u]|
    ensures var v := g[u][i];
            Edge(g, u, v) && v in g && (u, v) !in s1.followed && v != u && g[u][..i + 1] == g[u][..i] + [v]
  {
    assert Edge(g, u, g[u][i]);
  }

  lemma FollowRow(g: Adj, s0: Progress, s1: Progress, s2: Progress, u: string, i: nat, r: bool, r': bool)
    requires Inv(g, s1) && Row(g, s0, s1, u, i, r) && i < |g[u]|
    requires forall v :: (u, v) in s2.followed <==> (u, v) in s1.followed || v == g[u][i]
    requires !r' ==> !r && Col(s0, g[u][i]) != Grey
    ensures Row(g, s0, s2, u, i + 1, r')
  {
    NextEdge(g, s0, s1, u, i, r);
  }

  /** An edge to a vertex that is finished, or white and still held back. */
  lemma PassEdge(g: Adj, s0: Progress, s1: Progress, u: string, i: nat, r: bool)
    requires Visiting(g, s0, s1, u, i, r) && i < |g[u]| && g[u][i] in g
    requires s1.colour[g[u][i]] != Grey
    requires s1.colour[g[u][i]] == White ==> s1.inEdges[g[u][i]] != 1
    ensures Visiting(g, s0, Followed(s1, u, g[u][i]), u, i + 1, r)
  {
    var v := g[u][i];
    var s2 := Followed(s1, u, v);
    NextEdge(g, s0, s1, u, i, r);
    FollowKeeps(g, s1, u, v);
    FollowRow(g, s0, s1, s2, u, i, r, r);
    PassFree(g, s0, s1, u, v);
  }

  lemma PassFree(g: Adj, s0: Progress, s1: Progress, u: string, v: string)
    requires Inv(g, s1) && Edge(g, u, v) && (u, v) !in s1.followed && s1.colour[u] == Grey
    requires NoneLeftFree(g, s0, s1)
    requires s1.colour[v] == White ==> s1.inEdges[v] != 1
    ensures NoneLeftFree(g, s0, Followed(s1, u, v))
  {
    WaitingFollowed(g, s1.followed, u, v);
  }

  /** An edge to a vertex on the stack closes a cycle. */
  lemma LoopEdge(g: Adj, s0: Progress, s1: Progress, u: string, i: nat, r: bool)
    requires Visiting(g, s0, s1, u, i, r) && i < |g[u]| && g[u][i] in g
    requires s1.colour[g[u][i]] == Grey && RealCycle(g, u, g[u][i])
    ensures var s2 := Followed(s1, u, g[u][i]);
            Visiting(g, s0, s2.(reports := s2.reports + [(u, g[u][i])]), u, i + 1, true)
  {
    var v := g[u][i];
    var f := Followed(s1, u, v);
    var s2 := f.(reports := f.reports + [(u, v)]);
    NextEdge(g, s0, s1, u, i, r);
    FollowKeeps(g, s1, u, v);
    FollowRow(g, s0, s1, s2, u, i, r, true);
    PassFree(g, s0, s1, u, v);
    assert Inv(g, s2) && NoneLeftFree(g, s0, s2);
  }

  lemma FreeHasSourcesPrinted(g: Adj, s: Progress, v: string)
    requires Inv(g, s) && Free(g, s, v)
    ensures forall a :: Edge(g, a, v) ==> a in s.out
  {
    forall a | Edge(g, a, v) ensures a in s.out {
      assert a !in Waiting(g, s.followed, v);
    }
  }

  lemma OrderedExtend(g: Adj, out: seq<string>, v: string, out': seq<string>, k: nat)
    requires OrderedFrom(g, out, k) && k <= |out| && out + [v] <= out' && OrderedFrom(g, out', |out| + 1)
    requires forall a :: Edge(g, a, v) ==> a in out
    ensures OrderedFrom(g, out', k)
  {
    forall i, a | k <= i < |out'| && Edge(g, a, out'[i]) ensures a in out'[..i] {
      if i < |out| {
        assert out'[i] == (out + [v])[i] == out[i];
        assert a in out[..i] && out[..i] == out'[..i];
      } else if i == |out| {
        assert out'[i] == (out + [v])[i] == v;
        assert out'[..i] == out;
      }
    }
  }

  /** An edge whose target becomes free: the target is visited at once. */
  lemma VisitEdge(g: Adj, s0: Progress, s1: Progress, s2: Progress, u: string, i: nat, r: bool, r': bool)
    requires Visiting(g, s0, s1, u, i, r) && i < |g[u]| && g[u][i] in g
    requires s1.colour[g[u][i]] == White && s1.inEdges[g[u][i]] == 1
    requires Visited(g, Followed(s1, u, g[u][i]), s2, g[u][i], r')
    ensures Visiting(g, s0, s2, u, i + 1, r || r')
  {
    var v := g[u][i];
    NextEdge(g, s0, s1, u, i, r);
    VisitEdgePrints(g, s0, s1, s2, u, i, r, r');
    VisitEdgeFollows(g, s0, s1, s2, u, i, r, r');
    VisitEdgeReports(g, s0, s1, s2, u, v, r, r');
  }

  lemma VisitEdgePrints(g: Adj, s0: Progress, s1: Progress, s2: Progress, u: string, i: nat, r: bool, r': bool)
    requires Visiting(g, s0, s1, u, i, r) && i < |g[u]| && g[u][i] in g
    requires s1.colour[g[u][i]] == White && s1.inEdges[g[u][i]] == 1
    requires Visited(g, Followed(s1, u, g[u][i]), s2, g[u][i], r')
    ensures Printed(g, s0, s2, u) && NoneLeftFree(g, s0, s2)
  {
    var v := g[u][i];
    var f := Followed(s1, u, v);
    NextEdge(g, s0, s1, u, i, r);
    FollowKeeps(g, s1, u, v);
    assert Free(g, f, v);
    FreeHasSourcesPrinted(g, f, v);
    OrderedExtend(g, s1.out, v, s2.out, |s0.out| + 1);
    forall w | Free(g, s2, w) ensures Free(g, s0, w) {
      assert Free(g, f, w) && w != v;
    }
  }

  lemma VisitEdgeFollows(g: Adj, s0: Progress, s1: Progress, s2: Progress, u: string, i: nat, r: bool, r': bool)
    requires Inv(g, s1) && Row(g, s0, s1, u, i, r) && i < |g[u]| && g[u][i] in g
    requires Recoloured(s0, s1, u) && FollowedMore(s0, s1) && Col(s0, u) == White && Col(s1, u) == Grey
    requires s1.colour[g[u][i]] == White
    requires FollowedMore(Followed(s1, u, g[u][i]), s2) && Recoloured(Followed(s1, u, g[u][i]), s2, g[u][i])
    requires Col(s2, g[u][i]) == Black
    ensures FollowedMore(s0, s2) && Row(g, s0, s2, u, i + 1, r || r')
    ensures Recoloured(s0, s2, u) && Col(s2, u) == Grey
  {
    var v := g[u][i];
    var f := Followed(s1, u, v);
    NextEdge(g, s0, s1, u, i, r);
    assert Col(f, u) == Grey;
    assert forall a, b :: (a, b) in f.followed <==> (a, b) in s1.followed || (a, b) == (u, v);
    assert forall w :: Col(f, w) == Col(s1, w);
    VisitEdgeRow(g, s0, s1, s2, u, i, r, r');
    assert FollowedMore(s0, s2);
  }

  lemma VisitEdgeRow(g: Adj, s0: Progress, s1: Progress, s2: Progress, u: string, i: nat, r: bool, r': bool)
    requires Inv(g, s1) && Row(g, s0, s1, u, i, r) && i < |g[u]| && g[u][i] in g
    requires Recoloured(s0, s1, u) && Col(s1, u) == Grey && s1.colour[g[u][i]] == White
    requires FollowedMore(Followed(s1, u, g[u][i]), s2)
    ensures Row(g, s0, s2, u, i + 1, r || r')
  {
    var v := g[u][i];
    var f := Followed(s1, u, v);
    NextEdge(g, s0, s1, u, i, r);
    assert Col(f, u) == Grey;
    forall w ensures (u, w) in s2.followed <==> (u, w) in s1.followed || w == v {
      assert (u, w) in f.followed <==> (u, w) in s1.followed || w == v;
      assert (u, w) in s2.followed ==> (u, w) in f.followed;
    }
    FollowRow(g, s0, s1, s2, u, i, r, r || r');
  }

  lemma VisitEdgeReports(g: Adj, s0: Progress, s1: Progress, s2: Progress, u: string, v: string, r: bool, r': bool)
    requires v in g && s1.colour.Keys == g.Keys == s1.inEdges.Keys && Col(s1, u) == Grey
    requires ReportsGrow(g, s0, s1, r) && (!r ==> NoBackEdge(g, s0, s1, u)) && Recoloured(s0, s1, u)
    requires ReportsGrow(g, Followed(s1, u, v), s2, r') && (!r' ==> NoBackEdge(g, Followed(s1, u, v), s2, v))
    requires Recoloured(Followed(s1, u, v), s2, v)
    requires Col(s0, u) == White && Col(s1, v) == White
    ensures ReportsGrow(g, s0, s2, r || r')
    ensures !r && !r' ==> NoBackEdge(g, s0, s2, u)
  {
    var f := Followed(s1, u, v);
    assert forall i :: 0 <= i < |f.reports| ==> s2.reports[i] == f.reports[i];
    if !r && !r' {
      forall w, x | Edge(g, w, x) && Col(s0, w) == White && Col(s2, w) == Black
        ensures Col(s0, x) != Grey && x != u
      {
        if Col(s1, w) == White {
          assert Col(f, x) != Grey;
        } else {
          assert Col(s1, w) == Black;
        }
      }
    }
  }

  lemma GreyReaches(g: Adj, stack: seq<string>, u: string, v: string)
    requires IsPath(g, stack + [u]) && Edge(g, u, v) && v in stack + [u]
    ensures RealCycle(g, u, v)
  {
    var p := stack + [u];
    var k :| 0 <= k < |p| && p[k] == v;
    var q := p[k..];
    forall i | 0 <= i < |q| - 1 ensures Edge(g, q[i], q[i + 1]) {
      assert Edge(g, p[k + i], p[k + i + 1]);
    }
    assert IsPath(g, q) && q[0] == v && q[|q| - 1] == u;
  }

  lemma PathSnoc(g: Adj, stack: seq<string>, u: string, v: string)
    requires IsPath(g, stack + [u]) && Edge(g, u, v)
    ensures IsPath(g, (stack + [u]) + [v])
  {
    var p := (stack + [u]) + [v];
    forall i | 0 <= i < |p| - 1 ensures Edge(g, p[i], p[i + 1]) {
      if i < |stack| { assert Edge(g, (stack + [u])[i], (stack + [u])[i + 1]); }
    }
  }

  lemma WhitesShrink(g: Adj, s0: Progress, s1: Progress, u: string)
    requires Col(s0, u) == White && Col(s1, u) == Grey && Recoloured(s0, s1, u)
    ensures Whites(s1) < Whites(s0)
  {
    assert u in Whites(s0) && u !in Whites(s1);
    forall w | w in Whites(s1) ensures w in Whites(s0) {
      assert Col(s1, w) == White;
    }
  }

  // ----------------------------------------------------- the whole sort

  /** The state between two roots of round k, at position p of the list. */
  ghost predicate Scanning(g: Adj, s: Progress, list: seq<string>, p: nat, k: nat) {
    Inv(g, s) && Listed(g, s, list, p, k)
  }

  /** Every white vertex is still in the list, those without waiting edges from p
      on and in the first round only. */
  ghost predicate Listed(g: Adj, s: Progress, list: seq<string>, p: nat, k: nat)
    requires s.colour.Keys == g.Keys == s.inEdges.Keys
  {
    && p <= |list| && Distinct(list)
    && (forall v :: v in list ==> v in g)
    && (forall v :: v in g && s.colour[v] == White ==> v in list)
    && (forall v :: Col(s, v) != Grey)
    && (forall v :: Free(g, s, v) ==> k == 0 && v in list[p..])
    && (p > 0 ==> k < |g|)
  }

  /** Every vertex is preceded by its sources, or some root was visited too soon
      and then a loop has been reported or a white vertex is left. */
  ghost predicate Judged(g: Adj, s: Progress, k: nat, r: bool) {
    && (r <==> |s.reports| > 0)
    && (forall i :: 0 <= i < |s.reports| ==> RealCycle(g, s.reports[i].0, s.reports[i].1))
    && (OrderedFrom(g, s.out, 0) || (k > 0 && (r || Whites(s) != {})))
  }

  lemma WaitingAtMost(g: Adj, f: set<(string, string)>, v: string)
    ensures |Waiting(g, f, v)| <= |g|
  {
    SubsetSize(Waiting(g, f, v), g.Keys);
  }

  lemma {:induction false} SubsetSize(a: set<string>, b: set<string>)
    requires a <= b
    ensures |a| <= |b|
    decreases |a|
  {
    if a != {} {
      var x :| x in a;
      SubsetSize(a - {x}, b - {x});
    }
  }

  lemma SkipStep(g: Adj, s: Progress, list: seq<string>, p: nat, k: nat)
    requires Scanning(g, s, list, p, k) && p < |list| && list[p] in g
    requires s.colour[list[p]] == White && s.inEdges[list[p]] > k
    ensures Scanning(g, s, list, p + 1, k)
  {
    WaitingAtMost(g, s.followed, list[p]);
  }

  lemma RemoveAt(list: seq<string>, p: nat)
    requires Distinct(list) && p < |list|
    ensures var l := list[..p] + list[p + 1..];
            && Distinct(l)
            && (forall v :: v in list && v != list[p] ==> v in l)
            && (forall v :: v in list[p..] && v != list[p] ==> v in l[p..])
            && (forall v :: v in l ==> v in list)
  {
    RemoveDistinct(list, list[..p] + list[p + 1..], p);
    RemoveParts(list[..p], list[p], list[p + 1..]);
    assert list == list[..p] + [list[p]] + list[p + 1..] && list[p..] == [list[p]] + list[p + 1..];
  }

  lemma RemoveDistinct(list: seq<string>, l: seq<string>, p: nat)
    requires Distinct(list) && p < |list| == |l| + 1
    requires forall i {:trigger l[i]} :: 0 <= i < |l| ==> l[i] == list[if i < p then i else i + 1]
    ensures Distinct(l)
  {
  }

  lemma RemoveParts(a: seq<string>, x: string, b: seq<string>)
    ensures (a + b)[|a|..] == b
    ensures forall v :: v in a + b ==> v in a + [x] + b
    ensures forall v :: v in a + [x] + b && v != x ==> v in a + b
    ensures forall v :: v in [x] + b && v != x ==> v in b
  {
  }

  /** A list l that has lost just the vertex u, which is not white. */
  lemma ListedWithout(g: Adj, s: Progress, list: seq<string>, p: nat, k: nat, l: seq<string>, u: string)
    requires s.colour.Keys == g.Keys == s.inEdges.Keys && Listed(g, s, list, p, k) && Col(s, u) != White
    requires p <= |l| && Distinct(l) && (forall v :: v in l ==> v in list)
    requires forall v :: v in list && v != u ==> v in l
    requires forall v :: v in list[p..] && v != u ==> v in l[p..]
    ensures Listed(g, s, l, p, k)
  {
    forall v | Free(g, s, v) ensures k == 0 && v in l[p..] { assert Col(s, v) == White; }
    forall v | v in g && s.colour[v] == White ensures v in l { assert Col(s, v) == White; }
  }

  lemma UnlistStep(g: Adj, s: Progress, list: seq<string>, p: nat, k: nat)
    requires s.colour.Keys == g.Keys == s.inEdges.Keys
    requires Listed(g, s, list, p, k) && p < |list| && Col(s, list[p]) != White
    ensures Listed(g, s, list[..p] + list[p + 1..], p, k)
  {
    var u, l := list[p], list[..p] + list[p + 1..];
    RemoveAt(list, p);
    ListedWithout(g, s, list, p, k, l, u);
  }

  /** Visiting a root keeps the state between roots. */
  lemma RootStep(g: Adj, s0: Progress, s1: Progress, list: seq<string>, p: nat, k: nat, r: bool)
    requires Scanning(g, s0, list, p, k) && p < |list| && Visited(g, s0, s1, list[p], r)
    ensures Scanning(g, s1, list, p, k) && Col(s1, list[p]) == Black
  {
    forall v ensures Col(s1, v) != Grey { assert Col(s0, v) != Grey; }
    forall v | v in g && s1.colour[v] == White ensures v in list { assert Col(s0, v) == White; }
    assert forall v :: Free(g, s1, v) ==> Free(g, s0, v);
  }

  /** A root visited with edges waiting leaves one of their sources white, unless
      it reports a loop. */
  lemma RootJudged(g: Adj, s0: Progress, s1: Progress, list: seq<string>, p: nat, k: nat, r0: bool, r: bool)
    requires Scanning(g, s0, list, p, k) && p < |list| && list[p] in g && Visited(g, s0, s1, list[p], r)
    requires s0.inEdges[list[p]] <= k && Judged(g, s0, k, r0)
    ensures Judged(g, s1, k, r0 || r)
  {
    var u := list[p];
    if Free(g, s0, u) {
      FreeHasSourcesPrinted(g, s0, u);
      OrderedExtend(g, s0.out, u, s1.out, 0);
    } else {
      var a :| a in Waiting(g, s0.followed, u);
      assert Edge(g, a, u);
      assert Col(s0, a) == White;
      if !r {
        assert Col(s1, a) != Black;
        assert a in Whites(s1);
      }
    }
  }

  lemma OrderedIsAcyclic(g: Adj, out: seq<string>)
    requires OrderedFrom(g, out, 0) && Distinct(out) && WellFormed(g) && forall v :: v in g ==> v in out
    ensures !Cyclic(g)
  {
    if Cyclic(g) {
      var p :| IsCycle(g, p);
      assert Edge(g, p[0], p[1]);
      var i :| 0 <= i < |out| && out[i] == p[0];
      var j := OrderedPath(g, out, p, i, |p| - 1);
      assert false;
    }
  }

  lemma {:induction false} OrderedPath(g: Adj, out: seq<string>, p: seq<string>, i: nat, n: nat) returns (j: nat)
    requires OrderedFrom(g, out, 0) && Distinct(out) && WellFormed(g) && forall v :: v in g ==> v in out
    requires IsPath(g, p) && 0 < n < |p| && i < |out| && out[i] == p[0]
    ensures i < j < |out| && out[j] == p[n]
    decreases n
  {
    var m := i;
    if n > 1 { m := OrderedPath(g, out, p, i, n - 1); }
    assert Edge(g, p[n - 1], p[n - 1 + 1]);
    j :| 0 <= j < |out| && out[j] == p[n];
    assert out[m] in out[..j];
  }

  // ---------------------------------------------------------- the loading

  /** The graph while it is read: everything sorted, counters exact. */
  ghost predicate Loaded(g: Adj, list: seq<string>, inEdges: map<string, int>, colour: map<string, Colour>) {
    && WellFormed(g) && colour.Keys == g.Keys && inEdges.Keys == g.Keys
    && Sorted(list) && (forall v :: v in list <==> v in g)
    && (forall u :: u in g ==> Sorted(g[u]))
    && (forall v :: v in g ==> colour[v] == White && inEdges[v] == |Waiting(g, {}, v)|)
  }

  lemma LoadedIsScanning(g: Adj, list: seq<string>, inEdges: map<string, int>, colour: map<string, Colour>)
    requires Loaded(g, list, inEdges, colour)
    ensures Scanning(g, Progress(inEdges, colour, {}, [], []), list, 0, 0)
  {
    SortedDistinct(list);
    assert list[0..] == list;
  }

  /** u and v stand next to each other as a pair of the input. */
  ghost predicate Paired(tokens: seq<string>, u: string, v: string) {
    exists i: nat :: PairAt(tokens, i, u, v)
  }

  ghost predicate PairAt(tokens: seq<string>, i: nat, u: string, v: string) {
    2 * i + 1 < |tokens| && tokens[2 * i] == u && tokens[2 * i + 1] == v
  }

  /** The graph that a list of tokens describes. */
  ghost predicate Describes(tokens: seq<string>, g: Adj) {
    && (forall v :: v in g <==> v in tokens)
    && (forall u, v :: Edge(g, u, v) <==> u != v && Paired(tokens, u, v))
  }

  lemma WaitingSame(g: Adj, h: Adj, v: string)
    requires forall u :: Edge(g, u, v) <==> Edge(h, u, v)
    ensures Waiting(g, {}, v) == Waiting(h, {}, v)
  {
    forall u ensures u in Waiting(g, {}, v) <==> u in Waiting(h, {}, v) {
      assert Edge(g, u, v) <==> Edge(h, u, v);
    }
  }

  lemma NewVertex(g: Adj, list: seq<string>, inEdges: map<string, int>, colour: map<string, Colour>, name: string,
                  k: nat)
    requires Loaded(g, list, inEdges, colour) && name !in list && k <= |list|
    requires Sorted(list[..k] + [name] + list[k..])
    ensures Loaded(g[name := []], list[..k] + [name] + list[k..], inEdges[name := 0], colour[name := White])
    ensures forall u, v :: Edge(g[name := []], u, v) <==> Edge(g, u, v)
  {
    RowMembers(list, k, name);
    forall v | v in g || v == name ensures |Waiting(g[name := []], {}, v)| == inEdges[name := 0][v] {
      NewVertexWaiting(g, inEdges, name, v);
    }
    VertexRows(g, name);
    VertexLoaded(g[name := []], list[..k] + [name] + list[k..], inEdges[name := 0], colour[name := White]);
  }

  lemma NewVertexWaiting(g: Adj, inEdges: map<string, int>, name: string, v: string)
    requires WellFormed(g) && inEdges.Keys == g.Keys && name !in g && (v in g || v == name)
    requires v in g ==> inEdges[v] == |Waiting(g, {}, v)|
    ensures |Waiting(g[name := []], {}, v)| == inEdges[name := 0][v]
  {
    var h := g[name := []];
    assert forall u, v :: Edge(h, u, v) <==> Edge(g, u, v);
    WaitingSame(g, h, v);
    if v == name {
      forall u ensures u !in Waiting(g, {}, v) { assert !Edge(g, u, v); }
      assert Waiting(g, {}, v) == {};
    }
  }

  lemma VertexRows(g: Adj, name: string)
    requires WellFormed(g) && name !in g && forall u :: u in g ==> Sorted(g[u])
    ensures var h := g[name := []];
            && WellFormed(h) && (forall u :: u in h ==> Sorted(h[u]))
            && (forall u, v :: Edge(h, u, v) <==> Edge(g, u, v))
  {
    var h := g[name := []];
    assert forall u, v :: Edge(h, u, v) <==> Edge(g, u, v);
    forall u | u in h ensures Sorted(h[u]) && Distinct(h[u]) { assert u != name ==> h[u] == g[u]; }
  }

  lemma VertexLoaded(h: Adj, l: seq<string>, inEdges: map<string, int>, colour: map<string, Colour>)
    requires WellFormed(h) && Sorted(l) && h.Keys == inEdges.Keys == colour.Keys && forall v :: v in l <==> v in h
    requires forall u :: u in h ==> Sorted(h[u]) && colour[u] == White && inEdges[u] == |Waiting(h, {}, u)|
    ensures Loaded(h, l, inEdges, colour)
  {
  }

  lemma NewEdge(g: Adj, list: seq<string>, inEdges: map<string, int>, colour: map<string, Colour>, u: string,
                v: string, row: seq<string>)
    requires Loaded(g, list, inEdges, colour) && u in g && v in g && u != v && v !in g[u]
    requires Sorted(row) && forall w :: w in row <==> w in g[u] || w == v
    ensures Loaded(g[u := row], list, inEdges[v := inEdges[v] + 1], colour)
    ensures forall a, b :: Edge(g[u := row], a, b) <==> Edge(g, a, b) || (a == u && b == v)
  {
    var h, counts := g[u := row], inEdges[v := inEdges[v] + 1];
    NewEdgeWellFormed(g, u, v, row);
    forall w | w in g ensures counts[w] == |Waiting(h, {}, w)| { NewEdgeWaiting(g, u, v, row, w); }
    LoadedWith(g, list, inEdges, colour, h, counts);
  }

  lemma LoadedWith(g: Adj, list: seq<string>, inEdges: map<string, int>, colour: map<string, Colour>, h: Adj,
                   counts: map<string, int>)
    requires Loaded(g, list, inEdges, colour) && WellFormed(h) && h.Keys == g.Keys == counts.Keys
    requires forall w :: w in h ==> Sorted(h[w]) && counts[w] == |Waiting(h, {}, w)|
    ensures Loaded(h, list, counts, colour)
  {
  }

  lemma NewEdgeWellFormed(g: Adj, u: string, v: string, row: seq<string>)
    requires WellFormed(g) && u in g && v in g && u != v
    requires Sorted(row) && forall w :: w in row <==> w in g[u] || w == v
    ensures WellFormed(g[u := row]) && forall w :: w in g && w != u ==> g[u := row][w] == g[w]
    ensures forall a, b :: Edge(g[u := row], a, b) <==> Edge(g, a, b) || (a == u && b == v)
  {
    var h := g[u := row];
    SortedDistinct(row);
    assert forall a, b :: Edge(h, a, b) <==> Edge(g, a, b) || (a == u && b == v);
    forall w | w in h ensures Distinct(h[w]) { assert w != u ==> h[w] == g[w]; }
  }

  lemma NewEdgeWaiting(g: Adj, u: string, v: string, row: seq<string>, w: string)
    requires WellFormed(g) && u in g && v in g && u != v && v !in g[u]
    requires Sorted(row) && forall w :: w in row <==> w in g[u] || w == v
    ensures |Waiting(g[u := row], {}, w)| == |Waiting(g, {}, w)| + (if w == v then 1 else 0)
  {
    NewEdgeWellFormed(g, u, v, row);
    if w == v { OneMoreWaiting(g, g[u := row], u, v); } else { WaitingSame(g, g[u := row], w); }
  }

  lemma OneMoreWaiting(g: Adj, h: Adj, u: string, v: string)
    requires !Edge(g, u, v) && forall a :: Edge(h, a, v) <==> Edge(g, a, v) || a == u
    ensures |Waiting(h, {}, v)| == |Waiting(g, {}, v)| + 1
  {
    forall a ensures a in Waiting(h, {}, v) <==> a in Waiting(g, {}, v) + {u} {
      assert Edge(h, a, v) <==> Edge(g, a, v) || a == u;
    }
    assert Waiting(h, {}, v) == Waiting(g, {}, v) + {u};
  }

  /** Reading one more token makes a pair only when it is the second of one. */
  lemma PairedSnoc(tokens: seq<string>, t: string, u: string, v: string)
    ensures Paired(tokens + [t], u, v) <==>
            Paired(tokens, u, v) || (|tokens| % 2 == 1 && tokens[|tokens| - 1] == u && t == v)
  {
    var ts := tokens + [t];
    if Paired(ts, u, v) {
      var i: nat :| PairAt(ts, i, u, v);
      if 2 * i + 1 < |tokens| { assert PairAt(tokens, i, u, v); }
    }
    if Paired(tokens, u, v) {
      var i: nat :| PairAt(tokens, i, u, v);
      assert PairAt(ts, i, u, v);
    }
    if |tokens| % 2 == 1 && tokens[|tokens| - 1] == u && t == v {
      assert PairAt(ts, |tokens| / 2, u, v);
    }
  }

  lemma NextParity(n: nat)
    ensures (n + 1) % 2 == 1 <==> n % 2 == 0
  {
  }

  /** One more token: its vertex, and the edge to it if it is the second of a pair
      of different names. */
  ghost predicate Grown(g: Adj, h: Adj, from: string, name: string, second: bool) {
    && h.Keys == g.Keys + {name}
    && forall u, v :: Edge(h, u, v) <==> Edge(g, u, v) || (second && u == from && v == name && u != v)
  }

  lemma DescribesMore(t: seq<string>, name: string, from: string, second: bool, g: Adj, h: Adj)
    requires Describes(t, g) && Grown(g, h, from, name, second) && (second <==> |t| % 2 == 1)
    requires second ==> from == t[|t| - 1]
    ensures Describes(t + [name], h)
  {
    forall u, v ensures Edge(h, u, v) <==> u != v && Paired(t + [name], u, v) {
      PairedSnoc(t, name, u, v);
    }
  }

  lemma DescribesNext(tokens: seq<string>, n: nat, from: string, second: bool, g: Adj, h: Adj)
    requires n < |tokens| && Describes(tokens[..n], g) && Grown(g, h, from, tokens[n], second)
    requires (second <==> n % 2 == 1) && (second ==> from == tokens[n - 1])
    ensures Describes(tokens[..n + 1], h) && tokens[n] in h
  {
    assert tokens[..n + 1] == tokens[..n] + [tokens[n]];
    DescribesMore(tokens[..n], tokens[n], from, second, g, h);
  }

  /** `find_vertex` and `find_edge`: walks a sorted list to the name or to the
      place where it belongs. */
  method Find(list: seq<string>, name: string) returns (found: bool, k: nat)
    requires Sorted(list)
    ensures found <==> name in list
    ensures found ==> k < |list| && list[k] == name
    ensures !found ==> k <= |list| && Sorted(list[..k] + [name] + list[k..])
  {
    k := 0;
    while k < |list|
      invariant k <= |list|
      invariant forall i :: 0 <= i < k ==> Less(list[i], name)
    {
      var cmp := Cmp(name, list[k]);
      CmpZero(name, list[k]);
      CmpSwap(name, list[k]);
      if cmp <= 0 {
        found := cmp == 0;
        if !found { NotBetween(list, name, k); }
        return;
      }
      k := k + 1;
    }
    found := false;
    NotBetween(list, name, k);
  }

  lemma NotBetween(list: seq<string>, name: string, k: nat)
    requires Sorted(list) && k <= |list|
    requires forall i :: 0 <= i < k ==> Less(list[i], name)
    requires k < |list| ==> Less(name, list[k])
    ensures name !in list && Sorted(list[..k] + [name] + list[k..])
  {
    SortedInsert(list, k, name);
    CmpZero(name, name);
    if name in list {
      var i :| 0 <= i < |list| && list[i] == name;
      if i > k { LessTransitive(name, list[k], list[i]); }
    }
  }

  class Graph {
    /** The list of vertices still linked, in order. */
    var list: seq<string>
    var edges: Adj
    var inEdges: map<string, int>
    var colour: map<string, Colour>
    /** Lines of standard output, and loops reported on standard error. */
    var out: seq<string>
    var reports: seq<(string, string)>
    /** The edges `sort_graph_visit` has looked at. */
    ghost var followed: set<(string, string)>

    ghost function S(): Progress
      reads this
    {
      Progress(inEdges, colour, followed, out, reports)
    }

    constructor ()
      ensures Loaded(edges, list, inEdges, colour) && edges == map[]
      ensures followed == {} && out == [] && reports == []
    {
      list, edges, inEdges, colour := [], map[], map[], map[];
      followed, out, reports := {}, [], [];
    }

    /** `add_vertex`. */
    method AddVertex(name: string)
      requires Loaded(edges, list, inEdges, colour)
      modifies this`list, this`edges, this`inEdges, this`colour
      ensures Loaded(edges, list, inEdges, colour)
      ensures edges.Keys == old(edges.Keys) + {name}
      ensures forall u, v :: Edge(edges, u, v) <==> old(Edge(edges, u, v))
    {
      var found, k := Find(list, name);
      if !found {
        NewVertex(edges, list, inEdges, colour, name, k);
        list := list[..k] + [name] + list[k..];
        edges, inEdges, colour := edges[name := []], inEdges[name := 0], colour[name := White];
      }
    }

    /** `add_edge`: an edge already there is not counted again. */
    method AddEdge(from: string, to: string)
      requires Loaded(edges, list, inEdges, colour) && from in edges && to in edges && from != to
      modifies this`edges, this`inEdges
      ensures Loaded(edges, list, inEdges, colour)
      ensures edges.Keys == old(edges.Keys)
      ensures forall u, v :: Edge(edges, u, v) <==> old(Edge(edges, u, v)) || (u == from && v == to)
    {
      var found, k := Find(edges[from], to);
      if !found {
        var row := edges[from][..k] + [to] + edges[from][k..];
        RowMembers(edges[from], k, to);
        NewEdge(edges, list, inEdges, colour, from, to, row);
        edges := edges[from := row];
        inEdges := inEdges[to := inEdges[to] + 1];
      }
    }

    /** `load_graph` on the tokens of the input: names come in pairs, equal names
        only make a vertex, and an odd number of them is an error. */
    method Load(tokens: seq<string>) returns (ok: bool)
      requires Loaded(edges, list, inEdges, colour) && edges == map[]
      modifies this`list, this`edges, this`inEdges, this`colour
      ensures Loaded(edges, list, inEdges, colour)
      ensures ok <==> |tokens| % 2 == 0
      ensures Describes(tokens, edges)
    {
      var n, from: string, second := 0, "", false;
      while n < |tokens|
        invariant n <= |tokens| && (second <==> n % 2 == 1)
        invariant second ==> from == tokens[n - 1] && from in edges
        invariant Loaded(edges, list, inEdges, colour) && Describes(tokens[..n], edges)
      {
        NextParity(n);
        LoadToken(tokens, n, from, second);
        if !second { from := tokens[n]; }
        second := !second;
        n := n + 1;
      }
      assert tokens[..n] == tokens;
      ok := !second;
    }

    /** One turn of the loops, with token number n. */
    method LoadToken(tokens: seq<string>, n: nat, from: string, second: bool)
      requires n < |tokens| && Loaded(edges, list, inEdges, colour) && Describes(tokens[..n], edges)
      requires (second <==> n % 2 == 1) && (second ==> from == tokens[n - 1] && from in edges)
      modifies this`list, this`edges, this`inEdges, this`colour
      ensures Loaded(edges, list, inEdges, colour) && Describes(tokens[..n + 1], edges) && tokens[n] in edges
    {
      ghost var g := edges;
      AddToken(from, tokens[n], second);
      DescribesNext(tokens, n, from, second, g, edges);
    }

    /** One token, the first or the second of a pair. */
    method AddToken(from: string, name: string, second: bool)
      requires Loaded(edges, list, inEdges, colour) && (second ==> from in edges)
      modifies this`list, this`edges, this`inEdges, this`colour
      ensures Loaded(edges, list, inEdges, colour)
      ensures Grown(old(edges), edges, from, name, second)
    {
      CmpZero(from, name);
      if !second {
        AddVertex(name);
      } else if Cmp(from, name) != 0 {
        AddVertex(name);
        AddEdge(from, name);
      }
    }

    /** `sort_graph_visit`; `stack` holds the callers' vertices. */
    method Visit(u: string, ghost stack: seq<string>) returns (r: bool)
      requires Inv(edges, S()) && u in edges && colour[u] == White
      requires IsPath(edges, stack + [u]) && forall v :: Col(S(), v) == Grey ==> v in stack
      modifies this`inEdges, this`colour, this`out, this`reports, this`followed
      ensures Visited(edges, old(S()), S(), u, r)
      decreases Whites(S()), 0
    {
      ghost var s0 := S();
      VisitStart(edges, s0, u);
      colour := colour[u := Grey];
      out := out + [u];
      r := false;
      var i := 0;
      while i < |edges[u]|
        invariant Visiting(edges, s0, S(), u, i, r)
        invariant forall v :: Col(S(), v) == Grey ==> v in stack + [u]
      {
        WhitesShrink(edges, s0, S(), u);
        r := Follow(u, i, r, s0, stack);
        i := i + 1;
      }
      VisitEnd(edges, s0, S(), u, r);
      colour := colour[u := Black];
    }

    /** One turn of its loop: the edge number i of u. */
    method Follow(u: string, i: nat, r: bool, ghost s0: Progress, ghost stack: seq<string>) returns (r': bool)
      requires Visiting(edges, s0, S(), u, i, r) && i < |edges[u]|
      requires IsPath(edges, stack + [u]) && forall v :: Col(S(), v) == Grey ==> v in stack + [u]
      modifies this`inEdges, this`colour, this`out, this`reports, this`followed
      ensures Visiting(edges, s0, S(), u, i + 1, r')
      ensures forall v :: Col(S(), v) == Grey ==> v in stack + [u]
      decreases Whites(S()), 2
    {
      ghost var s1 := S();
      var v := edges[u][i];
      NextEdge(edges, s0, s1, u, i, r);
      r' := r;
      followed := followed + {(u, v)};
      if colour[v] == White {
        inEdges := inEdges[v := inEdges[v] - 1];
        if inEdges[v] == 0 {
          r' := Descend(u, i, r, s0, s1, stack);
        } else {
          PassEdge(edges, s0, s1, u, i, r);
        }
      } else if colour[v] == Grey {
        GreyReaches(edges, stack, u, v);
        LoopEdge(edges, s0, s1, u, i, r);
        r' := true;
        reports := reports + [(u, v)];
      } else {
        PassEdge(edges, s0, s1, u, i, r);
      }
    }

    /** Its recursive call, for an edge that was the last one waiting. */
    method Descend(u: string, i: nat, r: bool, ghost s0: Progress, ghost s1: Progress, ghost stack: seq<string>)
      returns (r': bool)
      requires Visiting(edges, s0, s1, u, i, r) && i < |edges[u]| && edges[u][i] in edges && Edge(edges, u, edges[u][i])
      requires (u, edges[u][i]) !in s1.followed && s1.colour[edges[u][i]] == White && s1.inEdges[edges[u][i]] == 1
      requires S() == Followed(s1, u, edges[u][i])
      requires IsPath(edges, stack + [u]) && forall v :: Col(S(), v) == Grey ==> v in stack + [u]
      modifies this`inEdges, this`colour, this`out, this`reports, this`followed
      ensures Visiting(edges, s0, S(), u, i + 1, r')
      ensures forall v :: Col(S(), v) == Grey ==> v in stack + [u]
      decreases Whites(S()), 1
    {
      var v := edges[u][i];
      FollowKeeps(edges, s1, u, v);
      PathSnoc(edges, stack, u, v);
      var q := Visit(v, stack + [u]);
      VisitEdge(edges, s0, s1, S(), u, i, r, q);
      r' := r || q;
    }

    /** `r |= sort_graph_visit(u)` for the vertex at position p of the list. */
    method VisitRoot(p: nat, k: nat, r: bool) returns (r': bool)
      requires Scanning(edges, S(), list, p, k) && Judged(edges, S(), k, r)
      requires p < |list| && list[p] in edges && colour[list[p]] == White && inEdges[list[p]] <= k
      modifies this`inEdges, this`colour, this`out, this`reports, this`followed
      ensures Scanning(edges, S(), list, p, k) && Judged(edges, S(), k, r')
      ensures Col(S(), list[p]) == Black
    {
      ghost var s0 := S();
      assert IsPath(edges, [] + [list[p]]);
      var q := Visit(list[p], []);
      RootStep(edges, s0, S(), list, p, k, q);
      RootJudged(edges, s0, S(), list, p, k, r, q);
      r' := r || q;
    }

    /** One turn of the inner loop, at position p of the list. */
    method Turn(p: nat, k: nat, r: bool) returns (p': nat, r': bool)
      requires Scanning(edges, S(), list, p, k) && Judged(edges, S(), k, r) && p < |list|
      modifies this`list, this`inEdges, this`colour, this`out, this`reports, this`followed
      ensures Scanning(edges, S(), list, p', k) && Judged(edges, S(), k, r')
      ensures |list| - p' < old(|list|) - p
    {
      p', r' := p, r;
      var u := list[p];
      assert u in edges;
      if colour[u] == White && inEdges[u] > k {
        SkipStep(edges, S(), list, p, k);
        p' := p + 1;
      } else {
        if colour[u] == White { r' := VisitRoot(p, k, r); }
        UnlistStep(edges, S(), list, p, k);
        list := list[..p] + list[p + 1..];
      }
    }

    /** One round of `sort_graph`: a walk down the list that visits the vertices
        with at most k edges waiting and unlinks everything not white. */
    method Round(k: nat, r: bool) returns (r': bool)
      requires Scanning(edges, S(), list, 0, k) && Judged(edges, S(), k, r)
      modifies this`list, this`inEdges, this`colour, this`out, this`reports, this`followed
      ensures Scanning(edges, S(), list, 0, k + 1) && Judged(edges, S(), k + 1, r')
      ensures list != [] ==> k < |edges|
    {
      r' := r;
      var p: nat := 0;
      while p < |list|
        invariant Scanning(edges, S(), list, p, k) && Judged(edges, S(), k, r')
        decreases |list| - p
      {
        p, r' := Turn(p, k, r');
      }
      EndRound(edges, S(), list, k, r');
    }

    /** `sort_graph`: prints every vertex exactly once, reports only real loops,
        and returns true exactly when the graph has a cycle; otherwise every
        vertex is printed after all its sources. */
    method Sort() returns (r: bool)
      requires Scanning(edges, S(), list, 0, 0) && out == [] && reports == []
      modifies this`list, this`inEdges, this`colour, this`out, this`reports, this`followed
      ensures Distinct(out) && forall v :: v in out <==> v in edges
      ensures r <==> Cyclic(edges)
      ensures !r <==> OrderedFrom(edges, out, 0)
      ensures r <==> |reports| > 0
      ensures forall i :: 0 <= i < |reports| ==> RealCycle(edges, reports[i].0, reports[i].1)
    {
      r := false;
      var k := 0;
      while |list| > 0
        invariant Scanning(edges, S(), list, 0, k) && Judged(edges, S(), k, r)
        invariant list != [] ==> k <= |edges|
        decreases |edges| - k
      {
        r := Round(k, r);
        k := k + 1;
      }
      Verdict(edges, S(), list, k, r);
    }
  }

  lemma EndRound(g: Adj, s: Progress, list: seq<string>, k: nat, r: bool)
    requires Scanning(g, s, list, |list|, k) && Judged(g, s, k, r)
    ensures Scanning(g, s, list, 0, k + 1) && Judged(g, s, k + 1, r)
    ensures list != [] ==> k < |g|
  {
    assert list[|list|..] == [];
    if !OrderedFrom(g, s.out, 0) { assert k > 0; }
  }

  lemma Verdict(g: Adj, s: Progress, list: seq<string>, k: nat, r: bool)
    requires Scanning(g, s, list, 0, k) && Judged(g, s, k, r) && list == []
    ensures Distinct(s.out) && forall v :: v in s.out <==> v in g
    ensures r <==> Cyclic(g)
    ensures !r <==> OrderedFrom(g, s.out, 0)
  {
    assert Whites(s) == {};
    if OrderedFrom(g, s.out, 0) {
      OrderedIsAcyclic(g, s.out);
    }
    if r { RealCycleIsCycle(g, s.reports[0].0, s.reports[0].1); }
  }

  lemma RowMembers(row: seq<string>, k: nat, x: string)
    requires k <= |row|
    ensures forall w :: w in row[..k] + [x] + row[k..] <==> w in row || w == x
  {
    assert row == row[..k] + row[k..];
  }

  /** The program: 2 for an odd number of names; otherwise 1 if the pairs contain
      a cycle and 0 if not.  Every name is printed exactly once, and without a
      cycle the first name of every pair comes before the second. */
  method SortPairs(tokens: seq<string>) returns (status: int, out: seq<string>, reports: seq<(string, string)>)
    ensures status == 2 <==> |tokens| % 2 == 1
    ensures status == 0 || status == 1 || status == 2
    ensures status != 2 ==> Distinct(out) && forall v :: v in out <==> v in tokens
    ensures status != 2 ==>
              exists g: Adj :: Describes(tokens, g) && (status == 1 <==> Cyclic(g)) &&
                forall i :: 0 <= i < |reports| ==> RealCycle(g, reports[i].0, reports[i].1)
    ensures status == 0 ==>
              forall i, u :: 0 <= i < |out| && u != out[i] && Paired(tokens, u, out[i]) ==> u in out[..i]
    ensures status != 2 ==> (status == 1 <==> reports != [])
  {
    out, reports := [], [];
    var graph := new Graph();
    var ok := graph.Load(tokens);
    if !ok { return 2, [], []; }
    LoadedIsScanning(graph.edges, graph.list, graph.inEdges, graph.colour);
    var r := graph.Sort();
    status, out, reports := if r then 1 else 0, graph.out, graph.reports;
    forall i, u | !r && 0 <= i < |out| && u != out[i] && Paired(tokens, u, out[i]) ensures u in out[..i] {
      assert Edge(graph.edges, u, out[i]);
    }
  }
}

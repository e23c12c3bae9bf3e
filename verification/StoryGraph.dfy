/** The story graph's column assignment (apps/web/lib/fleet-story-graph.ts, `assignColumns`): an iterative depth-first
    search that cuts back edges and gives every story its longest-path column. */
module StoryGraph {

  // An edge key is the pair (story, dependency). Chains run from a story to what it depends on.

  type Id = string

  datatype Edge = Edge(story: Id, dep: Id)

  datatype Reason = Unknown | Cycle

  datatype UnresolvedDep = UnresolvedDep(story: Id, dep: Id, reason: Reason)

  datatype Frame = Frame(id: Id, next: nat)

  datatype Colour = Open | Done

  type DepMap = map<Id, seq<Id>>

  function Deps(g: DepMap, v: Id): seq<Id> {
    if v in g then g[v] else []
  }

  /** Every declared edge, whatever becomes of it. */
  ghost function Declared(g: DepMap): set<Edge> {
    set v, d | v in g && d in g[v] :: Edge(v, d)
  }

  /** A walk along `edges`, one dependency further at each step. */
  ghost predicate Chain(edges: set<Edge>, p: seq<Id>) {
    |p| > 0 && forall k :: 0 < k < |p| ==> Edge(p[k-1], p[k]) in edges
  }

  ghost predicate ChainBetween(edges: set<Edge>, from: Id, to: Id, p: seq<Id>) {
    Chain(edges, p) && p[0] == from && p[|p|-1] == to
  }

  ghost predicate Reaches(edges: set<Edge>, from: Id, to: Id) {
    exists p :: ChainBetween(edges, from, to, p)
  }

  /** The longest chain along `edges` that starts at v has n edges. */
  ghost predicate LongestFrom(edges: set<Edge>, v: Id, n: nat) {
    && (exists p :: Chain(edges, p) && p[0] == v && |p| == n + 1)
    && (forall p :: Chain(edges, p) && p[0] == v ==> |p| <= n + 1)
  }

  ghost predicate Acyclic(edges: set<Edge>) {
    forall p :: Chain(edges, p) && |p| > 1 ==> p[0] != p[|p|-1]
  }

  lemma DeclaredEdge(g: DepMap, v: Id, d: Id)
    ensures Edge(v, d) in Declared(g) <==> d in Deps(g, v)
  {
  }

  // ---------------------------------------------------------------------------------------------
  // Longest chains from local column equations
  // ---------------------------------------------------------------------------------------------

  /** v's column is one more than its deepest kept dependency's, or 0 when it keeps none. */
  ghost predicate OnePastDeepest(g: DepMap, cut: set<Edge>, columnOf: map<Id, nat>, v: Id)
    requires v in columnOf
  {
    && (forall d :: d in Deps(g, v) && Edge(v, d) !in cut ==> d in columnOf && columnOf[d] < columnOf[v])
    && (columnOf[v] > 0 ==>
          exists d :: d in Deps(g, v) && Edge(v, d) !in cut && d in columnOf && columnOf[d] + 1 == columnOf[v])
  }

  ghost predicate Layered(g: DepMap, cut: set<Edge>, columnOf: map<Id, nat>) {
    forall v :: v in columnOf ==> OnePastDeepest(g, cut, columnOf, v)
  }

  lemma {:induction false} ChainDescends(g: DepMap, cut: set<Edge>, columnOf: map<Id, nat>, p: seq<Id>)
    requires Layered(g, cut, columnOf)
    requires Chain(Declared(g) - cut, p) && p[0] in columnOf
    ensures p[|p|-1] in columnOf && columnOf[p[|p|-1]] + |p| - 1 <= columnOf[p[0]]
    decreases |p|
  {
    if |p| > 1 {
      assert Edge(p[0], p[1]) in Declared(g) - cut;
      var q := p[1..];
      assert Chain(Declared(g) - cut, q) by {
        forall k | 0 < k < |q| ensures Edge(q[k-1], q[k]) in Declared(g) - cut {
          assert Edge(p[k], p[k+1]) in Declared(g) - cut;
        }
      }
      ChainDescends(g, cut, columnOf, q);
    }
  }

  lemma {:induction false} DeepestChain(g: DepMap, cut: set<Edge>, columnOf: map<Id, nat>, v: Id) returns (p: seq<Id>)
    requires Layered(g, cut, columnOf) && v in columnOf
    ensures Chain(Declared(g) - cut, p) && p[0] == v && |p| == columnOf[v] + 1
    decreases columnOf[v]
  {
    if columnOf[v] == 0 {
      p := [v];
    } else {
      var d :| d in Deps(g, v) && Edge(v, d) !in cut && d in columnOf && columnOf[d] + 1 == columnOf[v];
      var q := DeepestChain(g, cut, columnOf, d);
      p := [v] + q;
      forall k | 0 < k < |p| ensures Edge(p[k-1], p[k]) in Declared(g) - cut {
        if k == 1 { DeclaredEdge(g, v, d); } else { assert Edge(q[k-2], q[k-1]) in Declared(g) - cut; }
      }
    }
  }

  /** The local equations alone pin every column to the length of the longest kept chain below it. */
  lemma LayeredIsLongest(g: DepMap, cut: set<Edge>, columnOf: map<Id, nat>, v: Id)
    requires Layered(g, cut, columnOf) && v in columnOf
    ensures LongestFrom(Declared(g) - cut, v, columnOf[v])
  {
    var p := DeepestChain(g, cut, columnOf, v);
    forall q | Chain(Declared(g) - cut, q) && q[0] == v ensures |q| <= columnOf[v] + 1 {
      ChainDescends(g, cut, columnOf, q);
    }
  }

  // ---------------------------------------------------------------------------------------------
  // The search's invariant
  // ---------------------------------------------------------------------------------------------

  /**
   One moment of the search. `tree` (the edges the search went down) and `seen` (how many dependencies
   of a story have been looked at) exist for the proof only.
   */
  datatype Dfs = Dfs(
    state: map<Id, Colour>,
    columnOf: map<Id, nat>,
    cut: set<Edge>,
    cycles: seq<UnresolvedDep>,
    stack: seq<Frame>,
    tree: set<Edge>,
    seen: map<Id, nat>)

  ghost predicate OnStack(s: Dfs, i: int, v: Id) {
    0 <= i < |s.stack| && s.stack[i].id == v
  }

  ghost predicate Active(s: Dfs, i: int, e: Edge) {
    OnStack(s, i, e.story) && OnStack(s, i + 1, e.dep)
  }

  ghost predicate Finished(s: Dfs, v: Id) {
    v in s.state && s.state[v] == Done
  }

  ghost predicate Coloured(s: Dfs) {
    && (forall i, j :: 0 <= i < j < |s.stack| ==> s.stack[i].id != s.stack[j].id)
    && (forall v :: v in s.state && s.state[v] == Open ==> exists i :: OnStack(s, i, v))
    && (forall i, v :: OnStack(s, i, v) ==> v in s.state && s.state[v] == Open)
    && (forall v :: v in s.columnOf <==> Finished(s, v))
  }

  ghost predicate Progress(g: DepMap, s: Dfs) {
    && (forall v :: v in s.seen <==> v in s.state)
    && (forall v :: v in s.seen ==> s.seen[v] <= |Deps(g, v)|)
    && (forall i :: 0 <= i < |s.stack| ==> s.stack[i].id in s.seen && s.seen[s.stack[i].id] == s.stack[i].next)
    && (forall v :: Finished(s, v) ==> s.seen[v] == |Deps(g, v)|)
  }

  /** A dependency already looked at is cut, finished, or the one being explored right now. */
  ghost predicate LookedAt(s: Dfs, v: Id, d: Id) {
    Edge(v, d) in s.cut || Finished(s, d) || exists i :: Active(s, i, Edge(v, d))
  }

  ghost predicate Accounted(g: DepMap, s: Dfs) {
    forall v, j :: v in s.seen && 0 <= j < s.seen[v] && j < |Deps(g, v)| ==> LookedAt(s, v, Deps(g, v)[j])
  }

  ghost predicate TreeOk(g: DepMap, s: Dfs) {
    && s.tree <= Declared(g)
    && s.tree !! s.cut
    && (forall i :: 0 <= i < |s.stack| - 1 ==> Edge(s.stack[i].id, s.stack[i+1].id) in s.tree)
    && (forall e :: e in s.tree ==> e.dep in s.state)
    && (forall e :: e in s.tree && !Finished(s, e.dep) ==> exists i :: Active(s, i, e))
  }

  /** A cut edge closes a cycle whose other edges the search went down. */
  ghost predicate CutsOk(g: DepMap, s: Dfs) {
    forall e :: e in s.cut ==>
      e in Declared(g) && e.story in s.state && e.dep in s.state && Reaches(s.tree, e.dep, e.story)
  }

  ghost predicate Rooted(stories: seq<Id>, s: Dfs) {
    forall v :: v in s.state ==> exists r :: r in stories && Reaches(s.tree, r, v)
  }

  ghost function Reports(s: Dfs, v: Id, d: Id): nat {
    multiset(s.cycles)[UnresolvedDep(v, d, Cycle)]
  }

  /** A cut edge is reported once for each of its declared occurrences looked at; no other edge is. */
  ghost predicate Counted(g: DepMap, s: Dfs) {
    forall v, d :: Reports(s, v, d) ==
      if Edge(v, d) in s.cut && v in s.seen && s.seen[v] <= |Deps(g, v)|
      then multiset(Deps(g, v)[..s.seen[v]])[d] else 0
  }

  ghost predicate OnlyCycles(s: Dfs) {
    forall k :: 0 <= k < |s.cycles| ==> s.cycles[k].reason == Cycle
  }

  /** While a story is open, what it is cut from is open at or below it. */
  ghost predicate CutsStayOpen(s: Dfs) {
    forall e, i :: e in s.cut && OnStack(s, i, e.story) ==> exists j :: j <= i && OnStack(s, j, e.dep)
  }

  ghost predicate Inv(stories: seq<Id>, g: DepMap, s: Dfs) {
    && Coloured(s) && Progress(g, s) && Accounted(g, s) && TreeOk(g, s) && CutsOk(g, s)
    && Rooted(stories, s) && Counted(g, s) && OnlyCycles(s)
    && CutsStayOpen(s) && Layered(g, s.cut, s.columnOf)
  }

  lemma ReachesGrows(edges: set<Edge>, more: set<Edge>, from: Id, to: Id)
    requires Reaches(edges, from, to) && edges <= more
    ensures Reaches(more, from, to)
  {
    var p :| ChainBetween(edges, from, to, p);
    assert ChainBetween(more, from, to, p);
  }

  lemma ReachesSelf(edges: set<Edge>, v: Id)
    ensures Reaches(edges, v, v)
  {
    assert ChainBetween(edges, v, v, [v]);
  }

  lemma ReachesStep(edges: set<Edge>, from: Id, e: Edge)
    requires Reaches(edges, from, e.story) && e in edges
    ensures Reaches(edges, from, e.dep)
  {
    var p :| ChainBetween(edges, from, e.story, p);
    var q := p + [e.dep];
    forall k | 0 < k < |q| ensures Edge(q[k-1], q[k]) in edges {
      if k == |p| { assert q[k-1] == e.story; } else { assert Edge(p[k-1], p[k]) in edges; }
    }
    assert ChainBetween(edges, from, e.dep, q);
  }

  /** Along the stack the tree leads from any open story to the ones above it. */
  lemma {:induction false} StackPath(g: DepMap, s: Dfs, i: nat, j: nat)
    requires TreeOk(g, s) && i <= j < |s.stack|
    ensures Reaches(s.tree, s.stack[i].id, s.stack[j].id)
  {
    if i == j {
      ReachesSelf(s.tree, s.stack[i].id);
    } else {
      StackPath(g, s, i, j - 1);
      ReachesStep(s.tree, s.stack[i].id, Edge(s.stack[j-1].id, s.stack[j-1+1].id));
    }
  }

  // ---------------------------------------------------------------------------------------------
  // The four moves
  // ---------------------------------------------------------------------------------------------

  ghost predicate AtDep(g: DepMap, s: Dfs, f: Frame, d: Id) {
    && |s.stack| > 0 && f == s.stack[|s.stack|-1]
    && f.next < |Deps(g, f.id)| && d == Deps(g, f.id)[f.next]
  }

  /** t is s after the top frame moved past one dependency; the rest of the stack is untouched. */
  ghost predicate Advances(s: Dfs, t: Dfs, f: Frame) {
    && |s.stack| > 0 && |t.stack| >= |s.stack| && f == s.stack[|s.stack|-1]
    && (forall i :: 0 <= i < |s.stack| ==> t.stack[i].id == s.stack[i].id)
    && (forall i :: 0 <= i < |s.stack| - 1 ==> t.stack[i].next == s.stack[i].next)
    && t.stack[|s.stack|-1].next == f.next + 1
    && t.columnOf == s.columnOf
    && (forall v :: v in s.seen ==> v in t.seen && t.seen[v] == if v == f.id then f.next + 1 else s.seen[v])
  }

  ghost predicate SkipMove(s: Dfs, t: Dfs, f: Frame) {
    && Advances(s, t, f) && |t.stack| == |s.stack|
    && t.state == s.state && t.tree == s.tree && (forall v :: v in t.seen <==> v in s.seen)
    && t.cut == s.cut && t.cycles == s.cycles
  }

  ghost predicate CutMove(s: Dfs, t: Dfs, f: Frame, d: Id) {
    && Advances(s, t, f) && |t.stack| == |s.stack|
    && t.state == s.state && t.tree == s.tree && (forall v :: v in t.seen <==> v in s.seen)
    && t.cut == s.cut + {Edge(f.id, d)} && t.cycles == s.cycles + [UnresolvedDep(f.id, d, Cycle)]
  }

  ghost predicate PushMove(s: Dfs, t: Dfs, f: Frame, d: Id) {
    && Advances(s, t, f) && |t.stack| == |s.stack| + 1 && t.stack[|s.stack|] == Frame(d, 0)
    && t.state == s.state[d := Open] && t.tree == s.tree + {Edge(f.id, d)}
    && (forall v :: v in t.seen <==> v in s.seen || v == d) && t.seen[d] == 0
    && t.cut == s.cut && t.cycles == s.cycles
  }

  ghost predicate PopMove(s: Dfs, t: Dfs, f: Frame, column: nat) {
    && |s.stack| > 0 && |t.stack| == |s.stack| - 1 && f == s.stack[|s.stack|-1]
    && (forall i :: 0 <= i < |t.stack| ==> t.stack[i] == s.stack[i])
    && t.state == s.state[f.id := Done] && t.columnOf == s.columnOf[f.id := column]
    && t.cut == s.cut && t.cycles == s.cycles && t.tree == s.tree && t.seen == s.seen
  }

  lemma PrefixCount(deps: seq<Id>, n: nat, d: Id)
    requires n < |deps|
    ensures multiset(deps[..n+1])[d] == multiset(deps[..n])[d] + (if deps[n] == d then 1 else 0)
  {
    assert deps[..n+1] == deps[..n] + [deps[n]];
  }

  lemma TopFacts(g: DepMap, s: Dfs, f: Frame)
    requires Coloured(s) && Progress(g, s) && |s.stack| > 0 && f == s.stack[|s.stack|-1]
    ensures OnStack(s, |s.stack|-1, f.id)
    ensures f.id in s.state && s.state[f.id] == Open && f.id !in s.columnOf
    ensures f.id in s.seen && s.seen[f.id] == f.next
    ensures forall v :: v in s.seen <==> v in s.state
    ensures forall i :: OnStack(s, i, f.id) ==> i == |s.stack| - 1
  {
    assert OnStack(s, |s.stack|-1, f.id);
    forall i | OnStack(s, i, f.id) ensures i == |s.stack| - 1 {
    }
  }

  // Advancing without pushing: the cut and the skip.

  lemma SameOnStack(s: Dfs, t: Dfs, f: Frame)
    requires Advances(s, t, f) && |t.stack| == |s.stack|
    ensures forall i, v :: OnStack(t, i, v) <==> OnStack(s, i, v)
    ensures forall i, e :: Active(t, i, e) <==> Active(s, i, e)
  {
  }

  lemma AdvanceColours(s: Dfs, t: Dfs, f: Frame)
    requires Coloured(s) && Advances(s, t, f) && |t.stack| == |s.stack| && t.state == s.state
    ensures Coloured(t)
  {
    SameOnStack(s, t, f);
    forall v | v in t.state && t.state[v] == Open ensures exists i :: OnStack(t, i, v) {
      var i :| OnStack(s, i, v);
      assert OnStack(t, i, v);
    }
    assert forall v :: Finished(t, v) <==> Finished(s, v);
  }

  lemma AdvanceProgress(g: DepMap, s: Dfs, t: Dfs, f: Frame)
    requires Coloured(s) && Progress(g, s) && Advances(s, t, f) && |t.stack| == |s.stack| && t.state == s.state
    requires (forall v :: v in t.seen <==> v in s.seen) && f.next < |Deps(g, f.id)|
    ensures Progress(g, t)
  {
    TopFacts(g, s, f);
    hide Coloured;
    forall v | Finished(t, v) ensures t.seen[v] == |Deps(g, v)| { assert Finished(s, v); }
  }

  lemma AdvanceAccounts(g: DepMap, s: Dfs, t: Dfs, f: Frame)
    requires Accounted(g, s) && Advances(s, t, f) && |t.stack| == |s.stack| && t.state == s.state
    requires (forall v :: v in t.seen <==> v in s.seen) && f.id in s.seen && s.seen[f.id] == f.next && f.next < |Deps(g, f.id)|
    requires s.cut <= t.cut
    requires Edge(f.id, Deps(g, f.id)[f.next]) in t.cut || Finished(s, Deps(g, f.id)[f.next])
    ensures Accounted(g, t)
  {
    SameOnStack(s, t, f);
    forall v, j | v in t.seen && 0 <= j < t.seen[v] && j < |Deps(g, v)| ensures LookedAt(t, v, Deps(g, v)[j]) {
      var d := Deps(g, v)[j];
      if v != f.id || j != f.next {
        assert LookedAt(s, v, d);
        if i :| Active(s, i, Edge(v, d)) { assert Active(t, i, Edge(v, d)); }
      }
    }
  }

  lemma AdvanceTree(g: DepMap, s: Dfs, t: Dfs, f: Frame)
    requires TreeOk(g, s) && Advances(s, t, f) && |t.stack| == |s.stack| && t.state == s.state && t.tree == s.tree
    requires t.cut !! s.tree
    ensures TreeOk(g, t)
  {
    SameOnStack(s, t, f);
    forall e | e in t.tree && !Finished(t, e.dep) ensures exists i :: Active(t, i, e) {
      assert !Finished(s, e.dep);
      var i :| Active(s, i, e);
      assert Active(t, i, e);
    }
  }

  /** A dependency looked at before and still open would have been cut before, so an uncut one is new. */
  lemma FirstSight(g: DepMap, s: Dfs, f: Frame, d: Id)
    requires Coloured(s) && Progress(g, s) && Accounted(g, s) && AtDep(g, s, f, d)
    requires !Finished(s, d) && Edge(f.id, d) !in s.cut
    ensures d !in Deps(g, f.id)[..f.next]
  {
    var deps := Deps(g, f.id);
    TopFacts(g, s, f);
    forall j | 0 <= j < f.next ensures deps[j] != d {
      assert LookedAt(s, f.id, deps[j]);
    }
  }

  lemma CutCounts(g: DepMap, s: Dfs, t: Dfs, f: Frame, d: Id, v: Id, e: Id)
    requires Counted(g, s) && AtDep(g, s, f, d) && f.id in s.seen && s.seen[f.id] == f.next
    requires Edge(f.id, d) !in s.cut ==> d !in Deps(g, f.id)[..f.next]
    requires t.cut == s.cut + {Edge(f.id, d)} && t.cycles == s.cycles + [UnresolvedDep(f.id, d, Cycle)]
    requires forall w :: w in t.seen <==> w in s.seen
    requires forall w :: w in s.seen ==> t.seen[w] == if w == f.id then f.next + 1 else s.seen[w]
    ensures Reports(t, v, e) ==
      if Edge(v, e) in t.cut && v in t.seen && t.seen[v] <= |Deps(g, v)| then multiset(Deps(g, v)[..t.seen[v]])[e] else 0
  {
    if v == f.id {
      PrefixCount(Deps(g, f.id), f.next, e);
    }
  }

  lemma UncutCounts(g: DepMap, s: Dfs, t: Dfs, f: Frame, d: Id, v: Id, e: Id)
    requires Counted(g, s) && AtDep(g, s, f, d) && f.id in s.seen && s.seen[f.id] == f.next
    requires Edge(f.id, d) !in s.cut
    requires t.cut == s.cut && t.cycles == s.cycles && Advances(s, t, f)
    requires Edge(v, e) in s.cut ==> v in s.seen
    ensures Reports(t, v, e) ==
      if Edge(v, e) in t.cut && v in t.seen && t.seen[v] <= |Deps(g, v)| then multiset(Deps(g, v)[..t.seen[v]])[e] else 0
  {
    assert Reports(t, v, e) == Reports(s, v, e);
    if v == f.id { PrefixCount(Deps(g, f.id), f.next, e); }
  }

  lemma OpenReachesTop(g: DepMap, s: Dfs, d: Id)
    requires Coloured(s) && TreeOk(g, s) && d in s.state && s.state[d] == Open && |s.stack| > 0
    ensures Reaches(s.tree, d, s.stack[|s.stack|-1].id)
  {
    var i :| OnStack(s, i, d);
    StackPath(g, s, i, |s.stack|-1);
  }

  lemma OpenAfterCut(g: DepMap, s: Dfs, t: Dfs, f: Frame, d: Id)
    requires Coloured(s) && Progress(g, s) && CutsStayOpen(s) && AtDep(g, s, f, d)
    requires d in s.state && s.state[d] == Open && CutMove(s, t, f, d)
    ensures CutsStayOpen(t)
  {
    TopFacts(g, s, f);
    SameOnStack(s, t, f);
    forall e, i | e in t.cut && OnStack(t, i, e.story) ensures exists j :: j <= i && OnStack(t, j, e.dep) {
      assert OnStack(s, i, e.story);
      if e in s.cut {
        var j :| j <= i && OnStack(s, j, e.dep);
        assert OnStack(t, j, e.dep);
      } else {
        var j :| OnStack(s, j, d);
        assert OnStack(t, j, e.dep);
      }
    }
  }

  lemma OpenAfterSkip(s: Dfs, t: Dfs, f: Frame)
    requires CutsStayOpen(s) && Advances(s, t, f) && |t.stack| == |s.stack| && t.cut == s.cut
    ensures CutsStayOpen(t)
  {
    SameOnStack(s, t, f);
    forall e, i | e in t.cut && OnStack(t, i, e.story) ensures exists j :: j <= i && OnStack(t, j, e.dep) {
      assert OnStack(s, i, e.story);
      var j :| j <= i && OnStack(s, j, e.dep);
      assert OnStack(t, j, e.dep);
    }
  }

  lemma CutCounted(g: DepMap, s: Dfs, t: Dfs, f: Frame, d: Id)
    requires Coloured(s) && Progress(g, s) && Accounted(g, s) && Counted(g, s) && AtDep(g, s, f, d)
    requires !Finished(s, d) && CutMove(s, t, f, d)
    ensures Counted(g, t)
  {
    TopFacts(g, s, f);
    if Edge(f.id, d) !in s.cut { FirstSight(g, s, f, d); }
    forall v, e { CutCounts(g, s, t, f, d, v, e); }
  }

  lemma CutReaches(stories: seq<Id>, g: DepMap, s: Dfs, t: Dfs, f: Frame, d: Id)
    requires Coloured(s) && Progress(g, s) && TreeOk(g, s) && CutsOk(g, s) && AtDep(g, s, f, d)
    requires d in s.state && s.state[d] == Open && CutMove(s, t, f, d)
    requires Rooted(stories, s) && OnlyCycles(s)
    ensures CutsOk(g, t) && Rooted(stories, t) && OnlyCycles(t)
  {
    hide Coloured, Progress, TreeOk, Reaches;
    TopFacts(g, s, f);
    OpenReachesTop(g, s, d);
  }

  lemma CutTree(g: DepMap, s: Dfs, t: Dfs, f: Frame, d: Id)
    requires Coloured(s) && Progress(g, s) && TreeOk(g, s) && AtDep(g, s, f, d) && !Finished(s, d) && CutMove(s, t, f, d)
    ensures TreeOk(g, t)
  {
    AdvanceTree(g, s, t, f);
  }

  lemma CutLayers(g: DepMap, s: Dfs, t: Dfs, f: Frame, d: Id)
    requires Layered(g, s.cut, s.columnOf) && f.id !in s.columnOf
    requires t.cut == s.cut + {Edge(f.id, d)} && t.columnOf == s.columnOf
    ensures Layered(g, t.cut, t.columnOf)
  {
  }

  lemma CutPreserves(stories: seq<Id>, g: DepMap, s: Dfs, t: Dfs, f: Frame, d: Id)
    requires Inv(stories, g, s) && AtDep(g, s, f, d)
    requires d in s.state && s.state[d] == Open && CutMove(s, t, f, d)
    ensures Inv(stories, g, t)
  {
    TopFacts(g, s, f);
    AdvanceColours(s, t, f);
    AdvanceProgress(g, s, t, f);
    AdvanceAccounts(g, s, t, f);
    CutTree(g, s, t, f, d);
    CutReaches(stories, g, s, t, f, d);
    OpenAfterCut(g, s, t, f, d);
    CutLayers(g, s, t, f, d);
    CutCounted(g, s, t, f, d);
  }

  lemma SkipPreserves(stories: seq<Id>, g: DepMap, s: Dfs, t: Dfs, f: Frame, d: Id)
    requires Inv(stories, g, s) && AtDep(g, s, f, d)
    requires Finished(s, d) && SkipMove(s, t, f)
    ensures Inv(stories, g, t)
  {
    TopFacts(g, s, f);
    AdvanceColours(s, t, f);
    AdvanceProgress(g, s, t, f);
    AdvanceAccounts(g, s, t, f);
    AdvanceTree(g, s, t, f);
    OpenAfterSkip(s, t, f);
    assert Edge(f.id, d) !in s.cut;
    forall v, e { UncutCounts(g, s, t, f, d, v, e); }
  }

  // Going down an edge.

  lemma PushOnStack(s: Dfs, t: Dfs, f: Frame, d: Id)
    requires PushMove(s, t, f, d)
    ensures forall i, v :: OnStack(t, i, v) <==> OnStack(s, i, v) || (i == |s.stack| && v == d)
    ensures forall i, e :: Active(s, i, e) ==> Active(t, i, e)
    ensures Active(t, |s.stack| - 1, Edge(f.id, d))
  {
    forall i, v ensures OnStack(t, i, v) <==> OnStack(s, i, v) || (i == |s.stack| && v == d) { }
  }

  lemma PushColours(g: DepMap, s: Dfs, t: Dfs, f: Frame, d: Id)
    requires Coloured(s) && d !in s.state && PushMove(s, t, f, d)
    ensures Coloured(t) && (forall v :: Finished(t, v) <==> Finished(s, v))
  {
    PushOnStack(s, t, f, d);
    forall v ensures Finished(t, v) <==> Finished(s, v) { }
    forall v | v in t.state && t.state[v] == Open ensures exists i :: OnStack(t, i, v) {
      if v == d { assert OnStack(t, |s.stack|, d); } else { var i :| OnStack(s, i, v); assert OnStack(t, i, v); }
    }
    PushDistinct(s, t, f, d);
    hide PushMove;
  }

  lemma PushDistinct(s: Dfs, t: Dfs, f: Frame, d: Id)
    requires Coloured(s) && d !in s.state && PushMove(s, t, f, d)
    ensures forall i, j :: 0 <= i < j < |t.stack| ==> t.stack[i].id != t.stack[j].id
  {
    forall i, j | 0 <= i < j < |t.stack| ensures t.stack[i].id != t.stack[j].id {
      assert OnStack(s, i, t.stack[i].id);
      if j < |s.stack| { assert s.stack[i].id != s.stack[j].id; }
    }
  }

  lemma PushFrameProgress(g: DepMap, s: Dfs, t: Dfs, f: Frame, d: Id, i: nat)
    requires Coloured(s) && Progress(g, s) && d !in s.state && PushMove(s, t, f, d) && i < |t.stack|
    ensures t.stack[i].id in t.seen && t.seen[t.stack[i].id] == t.stack[i].next
  {
    hide Coloured, Progress, OnStack, Deps;
    TopFacts(g, s, f);
    if i < |s.stack| {
      FrameFacts(g, s, i);
      assert s.stack[i].id in t.seen && t.stack[i].id == s.stack[i].id;
    }
  }

  /** A frame holds a story that is open, no other frame's, and how far it was looked at. */
  lemma FrameFacts(g: DepMap, s: Dfs, i: nat)
    requires Coloured(s) && Progress(g, s) && i < |s.stack|
    ensures s.stack[i].id in s.state && s.stack[i].id in s.seen && s.seen[s.stack[i].id] == s.stack[i].next
    ensures i < |s.stack| - 1 ==> s.stack[i].id != s.stack[|s.stack|-1].id
  {
    assert OnStack(s, i, s.stack[i].id);
  }

  lemma PushProgress(g: DepMap, s: Dfs, t: Dfs, f: Frame, d: Id)
    requires Coloured(s) && Progress(g, s) && AtDep(g, s, f, d) && d !in s.state && PushMove(s, t, f, d)
    requires forall v :: Finished(t, v) <==> Finished(s, v)
    requires Coloured(t)
    ensures Progress(g, t)
  {
    TopFacts(g, s, f);
    forall i | 0 <= i < |t.stack| ensures t.stack[i].id in t.seen && t.seen[t.stack[i].id] == t.stack[i].next {
      PushFrameProgress(g, s, t, f, d, i);
    }
  }

  lemma PushAccounts(g: DepMap, s: Dfs, t: Dfs, f: Frame, d: Id)
    requires Coloured(s) && Progress(g, s) && Accounted(g, s) && AtDep(g, s, f, d) && d !in s.state && PushMove(s, t, f, d)
    ensures Accounted(g, t)
  {
    TopFacts(g, s, f);
    PushOnStack(s, t, f, d);
    forall v, j | v in t.seen && 0 <= j < t.seen[v] && j < |Deps(g, v)| ensures LookedAt(t, v, Deps(g, v)[j]) {
      var e := Deps(g, v)[j];
      if v != f.id || j != f.next {
        assert LookedAt(s, v, e);
        if i :| Active(s, i, Edge(v, e)) { assert Active(t, i, Edge(v, e)); }
      }
    }
  }

  lemma PushTree(g: DepMap, s: Dfs, t: Dfs, f: Frame, d: Id)
    requires TreeOk(g, s) && CutsOk(g, s) && AtDep(g, s, f, d) && d !in s.state && PushMove(s, t, f, d)
    ensures TreeOk(g, t)
  {
    PushOnStack(s, t, f, d);
    DeclaredEdge(g, f.id, d);
    forall i | 0 <= i < |t.stack| - 1 ensures Edge(t.stack[i].id, t.stack[i+1].id) in t.tree {
      if i < |s.stack| - 1 { assert Edge(s.stack[i].id, s.stack[i+1].id) in s.tree; }
    }
    forall e | e in t.tree && !Finished(t, e.dep) ensures exists i :: Active(t, i, e) {
      if e in s.tree {
        assert !Finished(s, e.dep);
        var i :| Active(s, i, e);
        assert Active(t, i, e);
      }
    }
  }

  lemma PushReaches(stories: seq<Id>, g: DepMap, s: Dfs, t: Dfs, f: Frame, d: Id)
    requires Rooted(stories, s) && CutsOk(g, s) && f.id in s.state && PushMove(s, t, f, d)
    ensures Rooted(stories, t) && CutsOk(g, t)
  {
    forall e | e in t.cut ensures Reaches(t.tree, e.dep, e.story) { ReachesGrows(s.tree, t.tree, e.dep, e.story); }
    forall v | v in t.state ensures exists r :: r in stories && Reaches(t.tree, r, v) {
      var w := if v == d then f.id else v;
      var r :| r in stories && Reaches(s.tree, r, w);
      ReachesGrows(s.tree, t.tree, r, w);
      if v == d { ReachesStep(t.tree, r, Edge(f.id, d)); }
    }
  }

  lemma PushOpen(g: DepMap, s: Dfs, t: Dfs, f: Frame, d: Id)
    requires CutsOk(g, s) && CutsStayOpen(s) && d !in s.state && PushMove(s, t, f, d)
    ensures CutsStayOpen(t)
  {
    PushOnStack(s, t, f, d);
    forall e, i | e in t.cut && OnStack(t, i, e.story) ensures exists j :: j <= i && OnStack(t, j, e.dep) {
      assert OnStack(s, i, e.story);
      var j :| j <= i && OnStack(s, j, e.dep);
      assert OnStack(t, j, e.dep);
    }
  }

  lemma PushPreserves(stories: seq<Id>, g: DepMap, s: Dfs, t: Dfs, f: Frame, d: Id)
    requires Inv(stories, g, s) && AtDep(g, s, f, d)
    requires d !in s.state && PushMove(s, t, f, d)
    ensures Inv(stories, g, t)
  {
    TopFacts(g, s, f);
    PushColours(g, s, t, f, d);
    PushProgress(g, s, t, f, d);
    PushAccounts(g, s, t, f, d);
    PushTree(g, s, t, f, d);
    PushReaches(stories, g, s, t, f, d);
    PushOpen(g, s, t, f, d);
    forall v, e { UncutCounts(g, s, t, f, d, v, e); }
  }

  // Leaving a story.

  lemma PopOnStack(s: Dfs, t: Dfs, f: Frame, column: nat)
    requires PopMove(s, t, f, column)
    ensures forall i, v :: OnStack(t, i, v) <==> OnStack(s, i, v) && i < |s.stack| - 1
    ensures forall i, e :: Active(s, i, e) ==> Active(t, i, e) || e.dep == f.id
    ensures forall v :: Finished(t, v) <==> Finished(s, v) || v == f.id
  {
    forall i, v ensures OnStack(t, i, v) <==> OnStack(s, i, v) && i < |s.stack| - 1 { }
    forall i, e | Active(s, i, e) ensures Active(t, i, e) || e.dep == f.id {
      assert OnStack(s, i, e.story) && OnStack(s, i + 1, e.dep);
    }
  }

  lemma PopColours(g: DepMap, s: Dfs, t: Dfs, f: Frame, column: nat)
    requires Coloured(s) && Progress(g, s) && PopMove(s, t, f, column) && f.next == |Deps(g, f.id)|
    ensures Coloured(t) && Progress(g, t)
  {
    PopProgress(g, s, t, f, column);
    TopFacts(g, s, f);
    hide Progress;
    PopStaysOpen(s, t, f, column);
    PopOnStack(s, t, f, column);
    hide OnStack, Finished;
  }

  /** What is open is still on the stack, and the other way round. */
  lemma PopStaysOpen(s: Dfs, t: Dfs, f: Frame, column: nat)
    requires Coloured(s) && PopMove(s, t, f, column) && forall i :: OnStack(s, i, f.id) ==> i == |s.stack| - 1
    ensures forall v :: v in t.state && t.state[v] == Open ==> exists i :: OnStack(t, i, v)
    ensures forall i, v :: OnStack(t, i, v) ==> v in t.state && t.state[v] == Open
  {
    PopOnStack(s, t, f, column);
    forall v | v in t.state && t.state[v] == Open ensures exists i :: OnStack(t, i, v) {
      var i :| OnStack(s, i, v);
      assert OnStack(t, i, v);
    }
    forall i, v | OnStack(t, i, v) ensures v in t.state && t.state[v] == Open { assert OnStack(s, i, v); }
  }

  lemma PopProgress(g: DepMap, s: Dfs, t: Dfs, f: Frame, column: nat)
    requires Coloured(s) && Progress(g, s) && PopMove(s, t, f, column) && f.next == |Deps(g, f.id)|
    ensures Progress(g, t)
  {
    TopFacts(g, s, f);
    PopOnStack(s, t, f, column);
    hide Coloured;
  }

  lemma PopAccounts(g: DepMap, s: Dfs, t: Dfs, f: Frame, column: nat)
    requires PopMove(s, t, f, column) && Accounted(g, s)
    ensures Accounted(g, t)
  {
    PopOnStack(s, t, f, column);
    forall v, j | v in t.seen && 0 <= j < t.seen[v] && j < |Deps(g, v)| ensures LookedAt(t, v, Deps(g, v)[j]) {
      var e := Deps(g, v)[j];
      assert LookedAt(s, v, e);
      if i :| Active(s, i, Edge(v, e)) { assert Active(t, i, Edge(v, e)) || e == f.id; }
    }
  }

  lemma PopTree(g: DepMap, s: Dfs, t: Dfs, f: Frame, column: nat)
    requires PopMove(s, t, f, column) && TreeOk(g, s)
    ensures TreeOk(g, t)
  {
    PopOnStack(s, t, f, column);
    forall e | e in t.tree && !Finished(t, e.dep) ensures exists i :: Active(t, i, e) {
      var i :| Active(s, i, e);
      assert Active(t, i, e);
    }
  }

  lemma PopOpen(s: Dfs, t: Dfs, f: Frame, column: nat)
    requires PopMove(s, t, f, column) && CutsStayOpen(s)
    ensures CutsStayOpen(t)
  {
    PopOnStack(s, t, f, column);
    forall e, i | e in t.cut && OnStack(t, i, e.story) ensures exists j :: j <= i && OnStack(t, j, e.dep) {
      assert OnStack(s, i, e.story);
      var j :| j <= i && OnStack(s, j, e.dep);
      assert OnStack(t, j, e.dep);
    }
  }

  lemma PopLayers(g: DepMap, cut: set<Edge>, columnOf: map<Id, nat>, v: Id, column: nat)
    requires Layered(g, cut, columnOf) && v !in columnOf
    requires OnePastDeepest(g, cut, columnOf[v := column], v)
    ensures Layered(g, cut, columnOf[v := column])
  {
    var after := columnOf[v := column];
    forall w | w in after ensures OnePastDeepest(g, cut, after, w) {
      if w != v { assert OnePastDeepest(g, cut, columnOf, w); }
    }
  }

  lemma PopPreserves(stories: seq<Id>, g: DepMap, s: Dfs, t: Dfs, f: Frame, column: nat)
    requires Inv(stories, g, s) && PopMove(s, t, f, column) && f.next == |Deps(g, f.id)|
    requires OnePastDeepest(g, s.cut, s.columnOf[f.id := column], f.id)
    ensures Inv(stories, g, t)
  {
    TopFacts(g, s, f);
    PopColours(g, s, t, f, column);
    PopAccounts(g, s, t, f, column);
    PopTree(g, s, t, f, column);
    PopOpen(s, t, f, column);
    PopLayers(g, s.cut, s.columnOf, f.id, column);
    assert forall v, e :: Reports(t, v, e) == Reports(s, v, e);
  }

  // Starting at a story the search has not met.

  ghost predicate RootMove(s: Dfs, t: Dfs, root: Id) {
    && t.stack == [Frame(root, 0)]
    && t.state == s.state[root := Open] && t.seen == s.seen[root := 0]
    && t.columnOf == s.columnOf && t.cut == s.cut && t.cycles == s.cycles && t.tree == s.tree
  }

  lemma RootOnStack(s: Dfs, t: Dfs, root: Id)
    requires s.stack == [] && RootMove(s, t, root) && root !in s.state
    ensures forall i, v :: OnStack(t, i, v) <==> i == 0 && v == root
    ensures forall i, e :: !Active(s, i, e) && !Active(t, i, e)
    ensures forall v :: Finished(t, v) <==> Finished(s, v)
  {
    forall i, v ensures OnStack(t, i, v) <==> i == 0 && v == root { }
  }

  lemma RootColours(g: DepMap, s: Dfs, t: Dfs, root: Id)
    requires s.stack == [] && RootMove(s, t, root) && root !in s.state
    requires Coloured(s) && Progress(g, s)
    ensures Coloured(t) && Progress(g, t)
  {
    RootOnStack(s, t, root);
    forall v | v in t.state && t.state[v] == Open ensures exists i :: OnStack(t, i, v) {
      if v == root { assert OnStack(t, 0, v); }
    }
  }

  lemma RootAccounts(g: DepMap, s: Dfs, t: Dfs, root: Id)
    requires s.stack == [] && RootMove(s, t, root) && root !in s.state
    requires Accounted(g, s) && TreeOk(g, s) && CutsOk(g, s)
    ensures Accounted(g, t) && TreeOk(g, t) && CutsOk(g, t) && CutsStayOpen(t)
  {
    RootOnStack(s, t, root);
    forall v, j | v in t.seen && 0 <= j < t.seen[v] && j < |Deps(g, v)| ensures LookedAt(t, v, Deps(g, v)[j]) {
      assert LookedAt(s, v, Deps(g, v)[j]);
    }
  }

  lemma RootPreserves(stories: seq<Id>, g: DepMap, s: Dfs, t: Dfs, root: Id)
    requires Inv(stories, g, s) && s.stack == [] && root in stories && root !in s.state
    requires RootMove(s, t, root)
    ensures Inv(stories, g, t)
  {
    RootColours(g, s, t, root);
    RootAccounts(g, s, t, root);
    ReachesSelf(t.tree, root);
    RootCounted(g, s, t, root);
  }

  lemma RootCounted(g: DepMap, s: Dfs, t: Dfs, root: Id)
    requires Counted(g, s) && CutsOk(g, s) && RootMove(s, t, root) && root !in s.state
    ensures Counted(g, t)
  {
    forall v, d
      ensures Reports(t, v, d) ==
        if Edge(v, d) in t.cut && v in t.seen && t.seen[v] <= |Deps(g, v)| then multiset(Deps(g, v)[..t.seen[v]])[d] else 0
    {
      assert Reports(t, v, d) == Reports(s, v, d);
      if Edge(v, d) in s.cut { assert Edge(v, d).story in s.state; }
    }
  }

  // ---------------------------------------------------------------------------------------------
  // A finished story's column
  // ---------------------------------------------------------------------------------------------

  /** The dependencies of v that were not cut, in declared order. */
  function KeptDeps(deps: seq<Id>, v: Id, cut: set<Edge>): (r: seq<Id>)
    ensures forall d :: d in r <==> d in deps && Edge(v, d) !in cut
  {
    if deps == [] then []
    else if Edge(v, deps[0]) in cut then KeptDeps(deps[1..], v, cut)
    else [deps[0]] + KeptDeps(deps[1..], v, cut)
  }

  function ColumnsOf(deps: seq<Id>, columnOf: map<Id, nat>): (r: seq<nat>)
    ensures |r| == |deps| && forall i :: 0 <= i < |r| ==> r[i] == if deps[i] in columnOf then columnOf[deps[i]] else 0
  {
    seq(|deps|, i requires 0 <= i < |deps| => if deps[i] in columnOf then columnOf[deps[i]] else 0)
  }

  function MaxOf(s: seq<nat>): (m: nat)
    requires |s| > 0
    ensures m in s && forall i :: 0 <= i < |s| ==> s[i] <= m
  {
    if |s| == 1 then s[0] else
      var rest := MaxOf(s[1..]);
      if s[0] >= rest then s[0] else rest
  }

  lemma FinishedColumn(g: DepMap, cut: set<Edge>, columnOf: map<Id, nat>, v: Id, column: nat)
    requires v !in columnOf
    requires forall d :: d in Deps(g, v) ==> Edge(v, d) in cut || d in columnOf
    requires var depColumns := ColumnsOf(KeptDeps(Deps(g, v), v, cut), columnOf);
             column == if |depColumns| == 0 then 0 else 1 + MaxOf(depColumns)
    ensures OnePastDeepest(g, cut, columnOf[v := column], v)
  {
    var kept := KeptDeps(Deps(g, v), v, cut);
    var depColumns := ColumnsOf(kept, columnOf);
    var after := columnOf[v := column];
    forall d | d in Deps(g, v) && Edge(v, d) !in cut ensures d in after && after[d] < after[v] {
      var i :| 0 <= i < |kept| && kept[i] == d;
      assert depColumns[i] == columnOf[d];
    }
    if after[v] > 0 {
      var i :| 0 <= i < |depColumns| && depColumns[i] == MaxOf(depColumns);
      assert kept[i] in Deps(g, v) && after[kept[i]] + 1 == after[v];
    }
  }

  /** When the top frame has no dependency left, each one is cut or finished. */
  lemma AllLookedAt(g: DepMap, s: Dfs, f: Frame)
    requires Coloured(s) && Progress(g, s) && Accounted(g, s)
    requires |s.stack| > 0 && f == s.stack[|s.stack|-1] && f.next >= |Deps(g, f.id)|
    ensures f.next == |Deps(g, f.id)|
    ensures forall d :: d in Deps(g, f.id) ==> Edge(f.id, d) in s.cut || d in s.columnOf
  {
    TopFacts(g, s, f);
    forall d | d in Deps(g, f.id) ensures Edge(f.id, d) in s.cut || d in s.columnOf {
      var j :| 0 <= j < |Deps(g, f.id)| && Deps(g, f.id)[j] == d;
      assert LookedAt(s, f.id, Deps(g, f.id)[j]);
    }
  }

  // ---------------------------------------------------------------------------------------------
  // Termination
  // ---------------------------------------------------------------------------------------------

  /** Every id the search can meet. */
  ghost function Universe(stories: seq<Id>, g: DepMap): set<Id> {
    (set v | v in stories) + (set v, d | v in g && d in g[v] :: d)
  }

  ghost function Remaining(g: DepMap, stack: seq<Frame>): nat {
    if stack == [] then 0 else
      var f := stack[|stack|-1];
      Remaining(g, stack[..|stack|-1]) + if f.next < |Deps(g, f.id)| then |Deps(g, f.id)| - f.next else 0
  }

  lemma AdvanceShrinks(g: DepMap, stack: seq<Frame>)
    requires |stack| > 0 && stack[|stack|-1].next < |Deps(g, stack[|stack|-1].id)|
    ensures var f := stack[|stack|-1];
      Remaining(g, stack[|stack|-1 := Frame(f.id, f.next + 1)]) < Remaining(g, stack)
  {
    var f := stack[|stack|-1];
    var after := stack[|stack|-1 := Frame(f.id, f.next + 1)];
    assert after[..|after|-1] == stack[..|stack|-1];
  }

  lemma MeetingShrinks(stories: seq<Id>, g: DepMap, state: map<Id, Colour>, v: Id, d: Id)
    requires d in Deps(g, v) && d !in state
    ensures Universe(stories, g) - state[d := Open].Keys < Universe(stories, g) - state.Keys
  {
    assert d in Universe(stories, g) - state.Keys;
    assert d !in Universe(stories, g) - state[d := Open].Keys;
  }

  // ---------------------------------------------------------------------------------------------
  // The same search, recursively
  // ---------------------------------------------------------------------------------------------

  /** What the search knows: the colours met so far, the columns fixed so far and the edges cut so far. */
  datatype Search = Search(state: map<Id, Colour>, columnOf: map<Id, nat>, cut: set<Edge>, cycles: seq<UnresolvedDep>)

  ghost function AllDeps(g: DepMap): set<Id> {
    set v, d | v in g && d in g[v] :: d
  }

  /** v leaves the search: its column is fixed from the dependencies it kept. */
  ghost function LeaveStory(g: DepMap, s: Search, v: Id): Search {
    var depColumns := ColumnsOf(KeptDeps(Deps(g, v), v, s.cut), s.columnOf);
    s.(state := s.state[v := Done], columnOf := s.columnOf[v := if |depColumns| == 0 then 0 else 1 + MaxOf(depColumns)])
  }

  ghost function CutEdge(s: Search, v: Id, d: Id): Search {
    s.(cut := s.cut + {Edge(v, d)}, cycles := s.cycles + [UnresolvedDep(v, d, Cycle)])
  }

  /** Everything below the open story v from its n-th dependency on, depth first, then v itself. */
  ghost function Explore(g: DepMap, s: Search, v: Id, n: nat): (t: Search)
    ensures s.state.Keys <= t.state.Keys
    decreases AllDeps(g) - s.state.Keys, |Deps(g, v)| - n
  {
    if n >= |Deps(g, v)| then LeaveStory(g, s, v) else
      var d := Deps(g, v)[n];
      if d !in s.state then
        assert v in g && d in g[v];
        assert d in AllDeps(g) - s.state.Keys;
        var below := Explore(g, s.(state := s.state[d := Open]), d, 0);
        assert d in below.state.Keys;
        Explore(g, below, v, n + 1)
      else if s.state[d] == Open then Explore(g, CutEdge(s, v, d), v, n + 1)
      else Explore(g, s, v, n + 1)
  }

  /** Every story in turn, in PRD order; one already met is passed over. */
  ghost function ExploreAll(g: DepMap, s: Search, stories: seq<Id>): Search
    decreases |stories|
  {
    if stories == [] then s
    else if stories[0] in s.state then ExploreAll(g, s, stories[1..])
    else ExploreAll(g, Explore(g, s.(state := s.state[stories[0] := Open]), stories[0], 0), stories[1..])
  }

  /** What is left to do for a stack of open stories, the top one first. */
  ghost function Unwind(g: DepMap, s: Search, stack: seq<Frame>): Search
    decreases |stack|
  {
    if stack == [] then s else
      var top := stack[|stack|-1];
      Unwind(g, Explore(g, s, top.id, top.next), stack[..|stack|-1])
  }

  /** One move of the loop leaves the work that remains as it was. */
  lemma MoveUnwinds(g: DepMap, s: Search, stack: seq<Frame>)
    requires |stack| > 0
    ensures var f := stack[|stack|-1];
      var rest := stack[..|stack|-1];
      var advanced := stack[|stack|-1 := Frame(f.id, f.next + 1)];
      if f.next >= |Deps(g, f.id)| then Unwind(g, s, stack) == Unwind(g, LeaveStory(g, s, f.id), rest)
      else
        var d := Deps(g, f.id)[f.next];
        Unwind(g, s, stack) ==
          if d !in s.state then Unwind(g, s.(state := s.state[d := Open]), advanced + [Frame(d, 0)])
          else if s.state[d] == Open then Unwind(g, CutEdge(s, f.id, d), advanced)
          else Unwind(g, s, advanced)
  {
    var f := stack[|stack|-1];
    var rest := stack[..|stack|-1];
    var advanced := stack[|stack|-1 := Frame(f.id, f.next + 1)];
    assert stack == rest + [f];
    assert advanced == rest + [Frame(f.id, f.next + 1)];
  }

  // ---------------------------------------------------------------------------------------------
  // The search
  // ---------------------------------------------------------------------------------------------

  method AssignColumns(stories: seq<Id>, depsOf: DepMap)
    returns (columnOf: map<Id, nat>, cut: set<Edge>, cycles: seq<UnresolvedDep>)
    // Exactly the stories and what they reach get a column.
    ensures forall v :: v in columnOf <==> exists r :: r in stories && Reaches(Declared(depsOf), r, v)
    // The column is the length of the longest chain of kept dependencies.
    ensures forall v :: v in columnOf ==> LongestFrom(Declared(depsOf) - cut, v, columnOf[v])
    ensures Layered(depsOf, cut, columnOf)
    // A cut edge was declared, and kept edges lead back from its dependency to its story.
    ensures forall e :: e in cut ==>
      e in Declared(depsOf) && e.story in columnOf && Reaches(Declared(depsOf) - cut, e.dep, e.story)
    // Each declared occurrence of a cut edge is reported once, and nothing else is.
    ensures forall v, d ::
      multiset(cycles)[UnresolvedDep(v, d, Cycle)] == (if Edge(v, d) in cut then multiset(Deps(depsOf, v))[d] else 0)
    ensures forall k :: 0 <= k < |cycles| ==> cycles[k].reason == Cycle
    // The loop is the recursive depth-first search in PRD order.
    ensures exists state :: Search(state, columnOf, cut, cycles) == ExploreAll(depsOf, Search(map[], map[], {}, []), stories)
  {
    hide Explore, Unwind, LeaveStory;
    hide Inv, Layered, LongestFrom, Reaches, Remaining, Universe, Declared, KeptDeps, ColumnsOf, MaxOf;
    var state: map<Id, Colour> := map[];
    columnOf, cut, cycles := map[], {}, [];
    ghost var tree: set<Edge> := {};
    ghost var seen: map<Id, nat> := map[];
    InitInv(stories, depsOf);
    ghost var all := ExploreAll(depsOf, Search(map[], map[], {}, []), stories);
    assert stories[0..] == stories;
    for k := 0 to |stories|
      invariant Inv(stories, depsOf, Dfs(state, columnOf, cut, cycles, [], tree, seen))
      invariant forall j :: 0 <= j < k ==> stories[j] in state
      invariant ExploreAll(depsOf, Search(state, columnOf, cut, cycles), stories[k..]) == all
    {
      var root := stories[k];
      assert stories[k..][1..] == stories[k+1..];
      if root in state { continue; }
      ghost var rooted := Explore(depsOf, Search(state[root := Open], columnOf, cut, cycles), root, 0);
      Enter(stories, depsOf, Dfs(state, columnOf, cut, cycles, [], tree, seen), root);
      var stack := [Frame(root, 0)];
      state := state[root := Open];
      seen := seen[root := 0];
      StartUnwind(depsOf, Search(state, columnOf, cut, cycles), root);
      while |stack| > 0
        invariant Inv(stories, depsOf, Dfs(state, columnOf, cut, cycles, stack, tree, seen))
        invariant forall j :: 0 <= j <= k ==> stories[j] in state
        invariant Unwind(depsOf, Search(state, columnOf, cut, cycles), stack) == rooted
        decreases Universe(stories, depsOf) - state.Keys, Remaining(depsOf, stack), |stack|
      {
        var frame := stack[|stack|-1];
        var deps := Deps(depsOf, frame.id);
        ghost var s := Dfs(state, columnOf, cut, cycles, stack, tree, seen);
        MoveUnwinds(depsOf, Search(state, columnOf, cut, cycles), stack);
        if frame.next < |deps| {
          var dep := deps[frame.next];
          AdvanceShrinks(depsOf, stack);
          stack := stack[|stack|-1 := Frame(frame.id, frame.next + 1)];
          seen := seen[frame.id := frame.next + 1];
          if dep in state && state[dep] == Open {
            CutBack(stories, depsOf, s, frame, dep);
            cut := cut + {Edge(frame.id, dep)};
            cycles := cycles + [UnresolvedDep(frame.id, dep, Cycle)];
          } else if dep !in state {
            MeetingShrinks(stories, depsOf, state, frame.id, dep);
            Descend(stories, depsOf, s, frame, dep);
            state := state[dep := Open];
            stack := stack + [Frame(dep, 0)];
            tree := tree + {Edge(frame.id, dep)};
            seen := seen[dep := 0];
          } else {
            Skip(stories, depsOf, s, frame, dep);
          }
          continue;
        }
        stack := stack[..|stack|-1];
        state := state[frame.id := Done];
        var depColumns := ColumnsOf(KeptDeps(deps, frame.id, cut), columnOf);
        var column := if |depColumns| == 0 then 0 else 1 + MaxOf(depColumns);
        Leave(stories, depsOf, s, frame, column);
        columnOf := columnOf[frame.id := column];
        LeftStory(depsOf, Search(s.state, s.columnOf, cut, cycles), frame.id, column);
      }
      EndUnwind(depsOf, Search(state, columnOf, cut, cycles));
    }
    assert stories[|stories|..] == [];
    assert Search(state, columnOf, cut, cycles) == all;
    SearchResult(stories, depsOf, Dfs(state, columnOf, cut, cycles, [], tree, seen));
  }

  lemma StartUnwind(g: DepMap, s: Search, root: Id)
    ensures Unwind(g, s, [Frame(root, 0)]) == Explore(g, s, root, 0)
  {
    assert [] + [Frame(root, 0)] == [Frame(root, 0)];
  }

  lemma EndUnwind(g: DepMap, s: Search)
    ensures Unwind(g, s, []) == s
  {
  }

  lemma LeftStory(g: DepMap, s: Search, v: Id, column: nat)
    requires var depColumns := ColumnsOf(KeptDeps(Deps(g, v), v, s.cut), s.columnOf);
             column == if |depColumns| == 0 then 0 else 1 + MaxOf(depColumns)
    ensures LeaveStory(g, s, v) == s.(state := s.state[v := Done], columnOf := s.columnOf[v := column])
  {
  }

  // The moves, as the loop makes them.

  lemma CutBack(stories: seq<Id>, g: DepMap, s: Dfs, f: Frame, d: Id)
    requires Inv(stories, g, s) && AtDep(g, s, f, d) && d in s.state && s.state[d] == Open
    ensures Inv(stories, g, s.(stack := s.stack[|s.stack|-1 := Frame(f.id, f.next + 1)], seen := s.seen[f.id := f.next + 1],
      cut := s.cut + {Edge(f.id, d)}, cycles := s.cycles + [UnresolvedDep(f.id, d, Cycle)]))
  {
    hide Coloured, Progress, Accounted, TreeOk, CutsOk, Rooted, CutsStayOpen, Counted, Layered;
    TopFacts(g, s, f);
    hide Inv;
    CutPreserves(stories, g, s, s.(stack := s.stack[|s.stack|-1 := Frame(f.id, f.next + 1)], seen := s.seen[f.id := f.next + 1],
      cut := s.cut + {Edge(f.id, d)}, cycles := s.cycles + [UnresolvedDep(f.id, d, Cycle)]), f, d);
  }

  lemma Descend(stories: seq<Id>, g: DepMap, s: Dfs, f: Frame, d: Id)
    requires Inv(stories, g, s) && AtDep(g, s, f, d) && d !in s.state
    ensures Inv(stories, g, s.(stack := s.stack[|s.stack|-1 := Frame(f.id, f.next + 1)] + [Frame(d, 0)],
      seen := s.seen[f.id := f.next + 1][d := 0], state := s.state[d := Open], tree := s.tree + {Edge(f.id, d)}))
  {
    hide Coloured, Progress, Accounted, TreeOk, CutsOk, Rooted, CutsStayOpen, Counted, Layered;
    TopFacts(g, s, f);
    hide Inv;
    PushPreserves(stories, g, s, s.(stack := s.stack[|s.stack|-1 := Frame(f.id, f.next + 1)] + [Frame(d, 0)],
      seen := s.seen[f.id := f.next + 1][d := 0], state := s.state[d := Open], tree := s.tree + {Edge(f.id, d)}), f, d);
  }

  lemma Skip(stories: seq<Id>, g: DepMap, s: Dfs, f: Frame, d: Id)
    requires Inv(stories, g, s) && AtDep(g, s, f, d) && d in s.state && s.state[d] == Done
    ensures Inv(stories, g, s.(stack := s.stack[|s.stack|-1 := Frame(f.id, f.next + 1)], seen := s.seen[f.id := f.next + 1]))
  {
    hide Coloured, Progress, Accounted, TreeOk, CutsOk, Rooted, CutsStayOpen, Counted, Layered;
    TopFacts(g, s, f);
    hide Inv;
    SkipPreserves(stories, g, s,
      s.(stack := s.stack[|s.stack|-1 := Frame(f.id, f.next + 1)], seen := s.seen[f.id := f.next + 1]), f, d);
  }

  lemma Leave(stories: seq<Id>, g: DepMap, s: Dfs, f: Frame, column: nat)
    requires Inv(stories, g, s) && |s.stack| > 0 && f == s.stack[|s.stack|-1] && f.next >= |Deps(g, f.id)|
    requires var depColumns := ColumnsOf(KeptDeps(Deps(g, f.id), f.id, s.cut), s.columnOf);
             column == if |depColumns| == 0 then 0 else 1 + MaxOf(depColumns)
    ensures Inv(stories, g, s.(stack := s.stack[..|s.stack|-1], state := s.state[f.id := Done],
      columnOf := s.columnOf[f.id := column]))
    ensures s.state[f.id := Done].Keys == s.state.Keys
    ensures Remaining(g, s.stack[..|s.stack|-1]) <= Remaining(g, s.stack)
  {
    hide Coloured, Progress, Accounted, TreeOk, CutsOk, Rooted, CutsStayOpen, Counted, Layered;
    TopFacts(g, s, f);
    AllLookedAt(g, s, f);
    hide Inv;
    FinishedColumn(g, s.cut, s.columnOf, f.id, column);
    PopPreserves(stories, g, s, s.(stack := s.stack[..|s.stack|-1], state := s.state[f.id := Done],
      columnOf := s.columnOf[f.id := column]), f, column);
  }

  lemma Enter(stories: seq<Id>, g: DepMap, s: Dfs, root: Id)
    requires Inv(stories, g, s) && s.stack == [] && root in stories && root !in s.state
    ensures Inv(stories, g, s.(stack := [Frame(root, 0)], state := s.state[root := Open], seen := s.seen[root := 0]))
  {
    hide Coloured, Progress, Accounted, TreeOk, CutsOk, Rooted, CutsStayOpen, Counted, Layered;
    hide Inv;
    RootPreserves(stories, g, s,
      s.(stack := [Frame(root, 0)], state := s.state[root := Open], seen := s.seen[root := 0]), root);
  }

  lemma SearchResult(stories: seq<Id>, g: DepMap, s: Dfs)
    requires Inv(stories, g, s) && s.stack == []
    requires forall k :: 0 <= k < |stories| ==> stories[k] in s.state
    ensures forall v :: v in s.columnOf <==> exists r :: r in stories && Reaches(Declared(g), r, v)
    ensures forall v :: v in s.columnOf ==> LongestFrom(Declared(g) - s.cut, v, s.columnOf[v])
    ensures Layered(g, s.cut, s.columnOf)
    ensures forall e :: e in s.cut ==>
      e in Declared(g) && e.story in s.columnOf && Reaches(Declared(g) - s.cut, e.dep, e.story)
    ensures forall v, d ::
      multiset(s.cycles)[UnresolvedDep(v, d, Cycle)] == (if Edge(v, d) in s.cut then multiset(Deps(g, v))[d] else 0)
    ensures forall k :: 0 <= k < |s.cycles| ==> s.cycles[k].reason == Cycle
  {
    hide Coloured, Progress, Accounted, TreeOk, CutsOk, Rooted, CutsStayOpen, Counted, Layered, LongestFrom, Reaches;
    ColumnsAreLongest(g, s);
    ColumnsAreReached(stories, g, s);
    CutsCloseCycles(g, s);
    AllReported(g, s);
  }

  lemma InitInv(stories: seq<Id>, g: DepMap)
    ensures Inv(stories, g, Dfs(map[], map[], {}, [], [], {}, map[]))
  {
  }

  // With an empty stack the invariant is the result.

  lemma AllDone(s: Dfs)
    requires Coloured(s) && s.stack == []
    ensures forall v :: v in s.state ==> Finished(s, v)
    ensures forall v :: v in s.state <==> v in s.columnOf
  {
    forall v | v in s.state ensures Finished(s, v) {
      if s.state[v] == Open { var i :| OnStack(s, i, v); }
    }
  }

  lemma ColumnsAreLongest(g: DepMap, s: Dfs)
    requires Layered(g, s.cut, s.columnOf)
    ensures forall v :: v in s.columnOf ==> LongestFrom(Declared(g) - s.cut, v, s.columnOf[v])
  {
    forall v | v in s.columnOf ensures LongestFrom(Declared(g) - s.cut, v, s.columnOf[v]) {
      LayeredIsLongest(g, s.cut, s.columnOf, v);
    }
  }

  lemma ColumnsAreReached(stories: seq<Id>, g: DepMap, s: Dfs)
    requires Inv(stories, g, s) && s.stack == []
    requires forall k :: 0 <= k < |stories| ==> stories[k] in s.state
    ensures forall v :: v in s.columnOf <==> exists r :: r in stories && Reaches(Declared(g), r, v)
  {
    hide Coloured, Progress, Accounted, TreeOk, CutsOk, Rooted, CutsStayOpen, Counted, Layered;
    AllDone(s);
    TreeIsDeclared(g, s);
    hide Inv, Reaches;
    forall v | v in s.columnOf ensures exists r :: r in stories && Reaches(Declared(g), r, v) {
      var r := RootOf(stories, g, s, v);
      ReachesGrows(s.tree, Declared(g), r, v);
    }
    forall r, v | r in stories && Reaches(Declared(g), r, v) ensures v in s.columnOf {
      DoneIsClosed(stories, g, s, r, v);
    }
  }

  lemma RootOf(stories: seq<Id>, g: DepMap, s: Dfs, v: Id) returns (r: Id)
    requires Inv(stories, g, s) && v in s.state
    ensures r in stories && Reaches(s.tree, r, v)
  {
    hide Coloured, Progress, Accounted, TreeOk, CutsOk, CutsStayOpen, Layered, Counted;
    r :| r in stories && Reaches(s.tree, r, v);
  }

  lemma TreeIsDeclared(g: DepMap, s: Dfs)
    requires TreeOk(g, s)
    ensures s.tree <= Declared(g)
  {
  }

  lemma DoneIsClosed(stories: seq<Id>, g: DepMap, s: Dfs, r: Id, v: Id)
    requires Inv(stories, g, s) && s.stack == []
    requires r in s.state && Reaches(Declared(g), r, v)
    ensures v in s.state
  {
    hide Coloured, Progress, Accounted, TreeOk, CutsOk, CutsStayOpen, Layered, Counted, Rooted;
    var p :| ChainBetween(Declared(g), r, v, p);
    ChainStaysDone(g, s, p);
  }

  lemma {:induction false} ChainStaysDone(g: DepMap, s: Dfs, p: seq<Id>)
    requires Coloured(s) && Progress(g, s) && Accounted(g, s) && CutsOk(g, s) && s.stack == []
    requires Chain(Declared(g), p) && p[0] in s.state
    ensures p[|p|-1] in s.state
    decreases |p|
  {
    if |p| > 1 {
      var q := p[..|p|-1];
      assert Chain(Declared(g), q);
      ChainStaysDone(g, s, q);
      AllDone(s);
      var v, d := p[|p|-2], p[|p|-1];
      assert Edge(v, d) in Declared(g);
      DeclaredEdge(g, v, d);
      var j :| 0 <= j < |Deps(g, v)| && Deps(g, v)[j] == d;
      assert LookedAt(s, v, Deps(g, v)[j]);
    }
  }

  lemma CutsCloseCycles(g: DepMap, s: Dfs)
    requires Coloured(s) && TreeOk(g, s) && CutsOk(g, s) && s.stack == []
    ensures forall e :: e in s.cut ==>
      e in Declared(g) && e.story in s.columnOf && Reaches(Declared(g) - s.cut, e.dep, e.story)
  {
    AllDone(s);
    forall e | e in s.cut ensures Reaches(Declared(g) - s.cut, e.dep, e.story) {
      ReachesGrows(s.tree, Declared(g) - s.cut, e.dep, e.story);
    }
  }

  lemma AllReported(g: DepMap, s: Dfs)
    requires Coloured(s) && Progress(g, s) && CutsOk(g, s) && Counted(g, s) && s.stack == []
    ensures forall v, d ::
      multiset(s.cycles)[UnresolvedDep(v, d, Cycle)] == (if Edge(v, d) in s.cut then multiset(Deps(g, v))[d] else 0)
  {
    AllDone(s);
    forall v, d ensures Reports(s, v, d) == if Edge(v, d) in s.cut then multiset(Deps(g, v))[d] else 0 {
      if Edge(v, d) in s.cut {
        var e := Edge(v, d);
        assert e.story in s.state;
        assert Finished(s, v);
        assert Deps(g, v)[..s.seen[v]] == Deps(g, v);
      }
    }
  }
}

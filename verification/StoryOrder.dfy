/** Which edge of a cycle the depth-first search cuts (apps/web/lib/fleet-story-graph.ts, `assignColumns`). */
module StoryOrder {

  // It is the one back to a story on the first path, in PRD order and then in declared order.

  import opened StoryGraph

  // ---------------------------------------------------------------------------------------------
  // First paths
  // ---------------------------------------------------------------------------------------------

  /** A walk along declared dependencies that avoids the stories already passed. */
  ghost predicate IsWalkPast(g: DepMap, past: seq<Id>, from: Id, to: Id, q: seq<Id>) {
    && |q| > 0 && q[0] == from && q[|q|-1] == to
    && (forall k :: 0 <= k < |q| ==> q[k] !in past)
    && (forall j, k :: 0 <= j < k < |q| && k == j + 1 ==> q[k] in Deps(g, q[j]))
  }

  ghost predicate ReachesPast(g: DepMap, past: seq<Id>, from: Id, to: Id) {
    exists q :: IsWalkPast(g, past, from, to, q)
  }

  /** The step after p[i] is the first declared dependency from which u is still reached without coming back to the path. */
  ghost predicate TakesFirst(g: DepMap, p: seq<Id>, i: nat, u: Id)
    requires i + 1 < |p|
  {
    exists c: nat :: c < |Deps(g, p[i])| && Deps(g, p[i])[c] == p[i+1] && SkipsTo(g, p[..i+1], Deps(g, p[i]), c, u)
  }

  /** None of the first c reaches u past the path. */
  ghost predicate SkipsTo(g: DepMap, past: seq<Id>, from: seq<Id>, c: nat, u: Id) {
    forall b :: 0 <= b < c && b < |from| ==> !ReachesPast(g, past, from[b], u)
  }

  ghost predicate StartsFirst(g: DepMap, stories: seq<Id>, p: seq<Id>, u: Id)
    requires p != []
  {
    exists r: nat :: r < |stories| && stories[r] == p[0] && SkipsTo(g, [], stories, r, u)
  }

  ghost predicate Distinct(p: seq<Id>) { forall i, j :: 0 <= i < j < |p| ==> p[i] != p[j] }

  /** The first path to u: from the first story that reaches it, always by the first dependency that still does. */
  ghost predicate IsFirstPath(g: DepMap, stories: seq<Id>, p: seq<Id>, u: Id) {
    && p != [] && p[|p|-1] == u && Distinct(p) && StartsFirst(g, stories, p, u)
    && forall i :: 0 <= i < |p| - 1 ==> TakesFirst(g, p, i, u)
  }

  /** d is on the first path to u, u itself included. */
  ghost predicate OnFirstPath(g: DepMap, stories: seq<Id>, u: Id, d: Id) {
    exists p :: IsFirstPath(g, stories, p, u) && d in p
  }

  // ---------------------------------------------------------------------------------------------
  // Walks
  // ---------------------------------------------------------------------------------------------

  /** A walk from d either ends at d or goes on, without coming back, from one of its dependencies. */
  lemma {:induction false} LeavesForGood(g: DepMap, past: seq<Id>, d: Id, u: Id, q: seq<Id>)
    requires IsWalkPast(g, past, d, u, q)
    ensures u == d || exists c: nat :: c < |Deps(g, d)| && ReachesPast(g, past + [d], Deps(g, d)[c], u)
    decreases |q|
  {
    if k :| 0 < k < |q| && q[k] == d {
      LeavesForGood(g, past, d, u, q[k..]);
    } else if |q| > 1 {
      var rest := q[1..];
      assert q[1] in Deps(g, q[0]);
      var c :| 0 <= c < |Deps(g, d)| && Deps(g, d)[c] == q[1];
      assert IsWalkPast(g, past + [d], q[1], u, rest);
    }
  }

  /** Everything looked at has its dependencies in the search. */
  ghost predicate ClosedUnder(g: DepMap, state: map<Id, Colour>) {
    forall v, d :: v in state && state[v] == Done && d in Deps(g, v) ==> d in state
  }

  /** What is done reaches only what is in the search, as long as it does not pass through what is open. */
  lemma {:induction false} DoneReaches(g: DepMap, state: map<Id, Colour>, path: seq<Id>, d: Id, u: Id, q: seq<Id>)
    requires ClosedUnder(g, state) && (forall x :: x in state && state[x] == Open ==> x in path)
    requires d in state && IsWalkPast(g, path, d, u, q)
    ensures u in state
    decreases |q|
  {
    assert q[0] !in path && state[d] == Done;
    if |q| > 1 {
      assert q[1] in Deps(g, q[0]);
      assert IsWalkPast(g, path, q[1], u, q[1..]);
      DoneReaches(g, state, path, q[1], u, q[1..]);
    }
  }

  // ---------------------------------------------------------------------------------------------
  // There is one first path
  // ---------------------------------------------------------------------------------------------

  /** The rest of a first path is a walk past its beginning. */
  lemma {:induction false} RestIsWalk(g: DepMap, stories: seq<Id>, p: seq<Id>, u: Id, i: nat)
    requires IsFirstPath(g, stories, p, u) && i < |p|
    ensures ReachesPast(g, p[..i], p[i], u)
  {
    var q := p[i..];
    forall j, k | 0 <= j < k < |q| && k == j + 1 ensures q[k] in Deps(g, q[j]) { assert TakesFirst(g, p, i + j, u); }
    assert IsWalkPast(g, p[..i], p[i], u, q);
  }

  lemma {:induction false} SamePrefix(g: DepMap, stories: seq<Id>, p: seq<Id>, q: seq<Id>, u: Id, n: nat)
    requires IsFirstPath(g, stories, p, u) && IsFirstPath(g, stories, q, u) && 0 < n <= |p| && n <= |q|
    ensures p[..n] == q[..n]
    decreases n
  {
    if n == 1 {
      var r: nat :| r < |stories| && stories[r] == p[0] && SkipsTo(g, [], stories, r, u);
      var t: nat :| t < |stories| && stories[t] == q[0] && SkipsTo(g, [], stories, t, u);
      RestIsWalk(g, stories, p, u, 0);
      RestIsWalk(g, stories, q, u, 0);
      SameChoice(g, [], stories, r, t, u);
    } else {
      SamePrefix(g, stories, p, q, u, n - 1);
      assert p[..n-1][n-2] == q[..n-1][n-2] && p[..n] == p[..n-1] + [p[n-1]] && q[..n] == q[..n-1] + [q[n-1]];
      assert TakesFirst(g, p, n - 2, u) && TakesFirst(g, q, n - 2, u);
      var from := Deps(g, p[n-2]);
      var c: nat :| c < |from| && from[c] == p[n-1] && SkipsTo(g, p[..n-1], from, c, u);
      var d: nat :| d < |from| && from[d] == q[n-1] && SkipsTo(g, q[..n-1], from, d, u);
      RestIsWalk(g, stories, p, u, n - 1);
      RestIsWalk(g, stories, q, u, n - 1);
      SameChoice(g, p[..n-1], from, c, d, u);
    }
  }

  lemma SameChoice(g: DepMap, past: seq<Id>, from: seq<Id>, c: nat, d: nat, u: Id)
    requires c < |from| && d < |from| && SkipsTo(g, past, from, c, u) && SkipsTo(g, past, from, d, u)
    requires ReachesPast(g, past, from[c], u) && ReachesPast(g, past, from[d], u)
    ensures c == d
  {
    hide ReachesPast;
  }

  /** A story has at most one first path. */
  lemma FirstPathUnique(g: DepMap, stories: seq<Id>, p: seq<Id>, q: seq<Id>, u: Id)
    requires IsFirstPath(g, stories, p, u) && IsFirstPath(g, stories, q, u)
    ensures p == q
  {
    var n := if |p| < |q| then |p| else |q|;
    SamePrefix(g, stories, p, q, u, n);
    assert p[n-1] == p[..n][n-1] == q[..n][n-1] == q[n-1];
    assert p == p[..n] && q == q[..n];
  }

  // ---------------------------------------------------------------------------------------------
  // What the search keeps
  // ---------------------------------------------------------------------------------------------

  ghost predicate IsOpen(state: map<Id, Colour>, path: seq<Id>) {
    forall x :: x in state && state[x] == Open <==> x in path
  }

  /** Whatever the first c reach past the path is in the search. */
  ghost predicate SweptFrom(g: DepMap, past: seq<Id>, from: seq<Id>, c: nat, state: map<Id, Colour>) {
    forall b, u :: 0 <= b < c && b < |from| && ReachesPast(g, past, from[b], u) ==> u in state
  }

  /** Of the first c dependencies of x those on its path are cut. */
  ghost predicate CutSoFar(g: DepMap, cut: set<Edge>, x: Id, path: seq<Id>, c: nat) {
    c <= |Deps(g, x)| && forall d :: Edge(x, d) in cut <==> d in path && d in Deps(g, x)[..c]
  }

  /** The open path, and how many dependencies of each story on it have been dealt with. */
  ghost predicate OnTheWay(g: DepMap, stories: seq<Id>, root: nat, path: seq<Id>, at: seq<nat>) {
    && |path| == |at| > 0 && Distinct(path) && root < |stories| && stories[root] == path[0]
    && forall i :: 0 <= i < |path| - 1 ==> StepsTo(g, path[i], at[i], path[i+1])
  }

  ghost predicate StepsTo(g: DepMap, x: Id, c: nat, d: Id) {
    c < |Deps(g, x)| && Deps(g, x)[c] == d
  }

  ghost predicate Swept(g: DepMap, stories: seq<Id>, state: map<Id, Colour>, root: nat, path: seq<Id>, at: seq<nat>)
    requires |path| == |at|
  {
    && SweptFrom(g, [], stories, root, state)
    && forall i :: 0 <= i < |path| ==> SweptFrom(g, path[..i+1], Deps(g, path[i]), at[i], state)
  }

  ghost predicate OpenCuts(g: DepMap, cut: set<Edge>, path: seq<Id>, at: seq<nat>)
    requires |path| == |at|
  {
    forall i :: 0 <= i < |path| ==> CutSoFar(g, cut, path[i], path[..i+1], at[i])
  }

  /** Of a story that is done exactly the edges back to its first path are cut; of one not met, none. */
  ghost predicate DoneCuts(g: DepMap, stories: seq<Id>, s: Search) {
    && (forall u, d :: u in s.state && s.state[u] == Done ==> (Edge(u, d) in s.cut <==> d in Deps(g, u) && OnFirstPath(g, stories, u, d)))
    && (forall u, d :: Edge(u, d) in s.cut ==> u in s.state)
  }

  ghost predicate Underway(g: DepMap, stories: seq<Id>, s: Search, root: nat, path: seq<Id>, at: seq<nat>) {
    && OnTheWay(g, stories, root, path, at) && IsFirstPath(g, stories, path, path[|path|-1])
    && IsOpen(s.state, path) && ClosedUnder(g, s.state) && Swept(g, stories, s.state, root, path, at)
    && OpenCuts(g, s.cut, path, at) && DoneCuts(g, stories, s)
  }

  // ---------------------------------------------------------------------------------------------
  // One step deeper, or over one dependency
  // ---------------------------------------------------------------------------------------------

  /** A story met for the first time is on its first path. */
  lemma MetOnFirstPath(g: DepMap, stories: seq<Id>, s: Search, root: nat, path: seq<Id>, at: seq<nat>, d: Id)
    requires Underway(g, stories, s, root, path, at) && d !in s.state
    requires StepsTo(g, path[|path|-1], at[|at|-1], d)
    ensures IsFirstPath(g, stories, path + [d], d)
  {
    var p := path + [d];
    assert Distinct(p);
    assert SkipsTo(g, [], stories, root, d);
    forall i | 0 <= i < |p| - 1 ensures TakesFirst(g, p, i, d) {
      assert p[..i+1] == path[..i+1];
      assert SweptFrom(g, path[..i+1], Deps(g, path[i]), at[i], s.state);
      assert SkipsTo(g, p[..i+1], Deps(g, p[i]), at[i], d);
      if i < |path| - 1 { assert StepsTo(g, path[i], at[i], path[i+1]); }
    }
  }

  lemma GoesDeeper(g: DepMap, stories: seq<Id>, s: Search, root: nat, path: seq<Id>, at: seq<nat>, d: Id)
    requires Underway(g, stories, s, root, path, at) && d !in s.state
    requires StepsTo(g, path[|path|-1], at[|at|-1], d)
    ensures Underway(g, stories, s.(state := s.state[d := Open]), root, path + [d], at + [0])
  {
    MetOnFirstPath(g, stories, s, root, path, at, d);
    DeeperSwept(g, stories, s, root, path, at, d);
    hide IsFirstPath, SweptFrom, CutSoFar, OnFirstPath, Swept, OpenCuts;
    var p, a := path + [d], at + [0];
    forall i | 0 <= i < |p| - 1 ensures StepsTo(g, p[i], a[i], p[i+1]) {
      if i < |path| - 1 { assert StepsTo(g, path[i], at[i], path[i+1]); }
    }
    hide StepsTo;
    DeeperStays(g, stories, s, d);
  }

  lemma DeeperStays(g: DepMap, stories: seq<Id>, s: Search, d: Id)
    requires ClosedUnder(g, s.state) && DoneCuts(g, stories, s) && d !in s.state
    ensures var t := s.(state := s.state[d := Open]); ClosedUnder(g, t.state) && DoneCuts(g, stories, t)
  {
    hide OnFirstPath;
  }

  lemma DeeperSwept(g: DepMap, stories: seq<Id>, s: Search, root: nat, path: seq<Id>, at: seq<nat>, d: Id)
    requires |path| == |at| > 0 && Swept(g, stories, s.state, root, path, at) && OpenCuts(g, s.cut, path, at)
    requires d !in s.state && DoneCuts(g, stories, s)
    ensures Swept(g, stories, s.state[d := Open], root, path + [d], at + [0]) && OpenCuts(g, s.cut, path + [d], at + [0])
  {
    var state, p, a := s.state[d := Open], path + [d], at + [0];
    forall i | 0 <= i < |p|
      ensures SweptFrom(g, p[..i+1], Deps(g, p[i]), a[i], state) && CutSoFar(g, s.cut, p[i], p[..i+1], a[i])
    {
      if i < |path| {
        assert p[..i+1] == path[..i+1];
        assert SweptFrom(g, path[..i+1], Deps(g, path[i]), at[i], s.state);
        assert CutSoFar(g, s.cut, path[i], path[..i+1], at[i]);
      }
    }
    hide OnFirstPath, ReachesPast;
  }

  /** What going deeper leaves of the path: the same path, one dependency further, in what the search below d has become. */
  lemma ComesBack(g: DepMap, stories: seq<Id>, s: Search, root: nat, path: seq<Id>, at: seq<nat>, d: Id, t: Search)
    requires Underway(g, stories, s, root, path, at) && d !in s.state
    requires StepsTo(g, path[|path|-1], at[|at|-1], d)
    requires s.state.Keys <= t.state.Keys && IsOpen(t.state, path) && ClosedUnder(g, t.state) && DoneCuts(g, stories, t) && d in t.state
    requires forall u :: ReachesPast(g, path, d, u) ==> u in t.state
    requires forall e: Edge :: e.story in path ==> (e in t.cut <==> e in s.cut)
    ensures Underway(g, stories, t, root, path, at[|at|-1 := at[|at|-1] + 1])
  {
    BackSwept(g, stories, s.state, root, path, at, d, t.state);
    BackCuts(g, s, path, at, d, t.cut);
    var a := at[|at|-1 := at[|at|-1] + 1];
    assert forall i :: 0 <= i < |path| - 1 ==> a[i] == at[i];
    hide IsFirstPath, Swept, OpenCuts, DoneCuts, ClosedUnder, IsOpen, StepsTo;
  }

  lemma BackSwept(g: DepMap, stories: seq<Id>, before: map<Id, Colour>, root: nat, path: seq<Id>, at: seq<nat>, d: Id, after: map<Id, Colour>)
    requires |path| == |at| > 0 && Swept(g, stories, before, root, path, at) && before.Keys <= after.Keys
    requires StepsTo(g, path[|path|-1], at[|at|-1], d)
    requires forall u :: ReachesPast(g, path, d, u) ==> u in after
    ensures Swept(g, stories, after, root, path, at[|at|-1 := at[|at|-1] + 1])
  {
    var last := |at| - 1;
    var a := at[last := at[last] + 1];
    assert path[..last+1] == path;
    forall i | 0 <= i < |path| ensures SweptFrom(g, path[..i+1], Deps(g, path[i]), a[i], after) {
      assert SweptFrom(g, path[..i+1], Deps(g, path[i]), at[i], before);
      hide ReachesPast;
    }
    hide ReachesPast;
  }

  lemma BackCuts(g: DepMap, s: Search, path: seq<Id>, at: seq<nat>, d: Id, cut: set<Edge>)
    requires |path| == |at| > 0 && Distinct(path) && OpenCuts(g, s.cut, path, at) && StepsTo(g, path[|path|-1], at[|at|-1], d)
    requires forall e: Edge :: e.story in path ==>
      (e in cut <==> e in s.cut || (d in path && e == Edge(path[|path|-1], d)))
    ensures OpenCuts(g, cut, path, at[|at|-1 := at[|at|-1] + 1])
  {
    var last, n := |at| - 1, at[|at|-1];
    var a := at[last := n + 1];
    assert path[..last+1] == path;
    assert Deps(g, path[last])[..n+1] == Deps(g, path[last])[..n] + [d];
    forall i | 0 <= i < |path| ensures CutSoFar(g, cut, path[i], path[..i+1], a[i]) {
      assert CutSoFar(g, s.cut, path[i], path[..i+1], at[i]);
    }
  }

  /** Everything d reaches past the path is met once everything its dependencies reach past the path and d is. */
  lemma AllBelowMet(g: DepMap, path: seq<Id>, d: Id, state: map<Id, Colour>)
    requires d in state && SweptFrom(g, path + [d], Deps(g, d), |Deps(g, d)|, state)
    ensures forall u :: ReachesPast(g, path, d, u) ==> u in state
  {
    forall u | ReachesPast(g, path, d, u) ensures u in state {
      var q :| IsWalkPast(g, path, d, u, q);
      LeavesForGood(g, path, d, u, q);
    }
  }

  /** A dependency that is open or done is dealt with at once; an open one is cut. */
  lemma PassesOver(g: DepMap, stories: seq<Id>, s: Search, root: nat, path: seq<Id>, at: seq<nat>, d: Id)
    requires Underway(g, stories, s, root, path, at) && d in s.state && StepsTo(g, path[|path|-1], at[|at|-1], d)
    ensures var t := if s.state[d] == Open then CutEdge(s, path[|path|-1], d) else s;
      Underway(g, stories, t, root, path, at[|at|-1 := at[|at|-1] + 1])
  {
    var v, a := path[|path|-1], at[|at|-1 := at[|at|-1] + 1];
    var t := if s.state[d] == Open then CutEdge(s, v, d) else s;
    forall u | ReachesPast(g, path, d, u) ensures u in s.state {
      var q :| IsWalkPast(g, path, d, u, q);
      assert q[0] == d;
      DoneReaches(g, s.state, path, d, u, q);
    }
    BackSwept(g, stories, s.state, root, path, at, d, s.state);
    BackCuts(g, s, path, at, d, t.cut);
    assert forall i :: 0 <= i < |path| - 1 ==> a[i] == at[i];
    CutsOfOpen(g, stories, s, v, d);
    hide IsFirstPath, Swept, OpenCuts, DoneCuts, ClosedUnder, StepsTo;
  }

  lemma CutsOfOpen(g: DepMap, stories: seq<Id>, s: Search, v: Id, d: Id)
    requires DoneCuts(g, stories, s) && v in s.state && s.state[v] == Open
    ensures DoneCuts(g, stories, CutEdge(s, v, d))
  {
    hide OnFirstPath;
  }

  // ---------------------------------------------------------------------------------------------
  // The whole search
  // ---------------------------------------------------------------------------------------------

  /** What exploring the last story of the path leaves: it is done, the rest is open, and only cuts below it are new. */
  ghost predicate Left(g: DepMap, stories: seq<Id>, s: Search, path: seq<Id>, t: Search)
    requires path != []
  {
    && s.state.Keys <= t.state.Keys && path[|path|-1] in t.state
    && IsOpen(t.state, path[..|path|-1]) && ClosedUnder(g, t.state) && DoneCuts(g, stories, t)
    && SweptFrom(g, path, Deps(g, path[|path|-1]), |Deps(g, path[|path|-1])|, t.state)
    && forall e: Edge :: e.story in path[..|path|-1] ==> (e in t.cut <==> e in s.cut)
  }

  lemma Leaves(g: DepMap, stories: seq<Id>, s: Search, root: nat, path: seq<Id>, at: seq<nat>)
    requires Underway(g, stories, s, root, path, at) && at[|at|-1] >= |Deps(g, path[|path|-1])|
    ensures Left(g, stories, s, path, LeaveStory(g, s, path[|path|-1]))
  {
    var last := |path| - 1;
    var v, t := path[last], LeaveStory(g, s, path[last]);
    assert path[..last+1] == path;
    assert CutSoFar(g, s.cut, v, path[..last+1], at[last]);
    assert SweptFrom(g, path[..last+1], Deps(g, v), at[last], s.state);
    assert Deps(g, v)[..|Deps(g, v)|] == Deps(g, v);
    assert t.state == s.state[v := Done] && t.cut == s.cut;
    hide LeaveStory, Swept, OpenCuts, OnTheWay;
    DepsMet(g, s.state, path, v);
    LeftCuts(g, stories, s, path, v, t);
    LeftState(g, s.state, path);
    hide *;
  }

  lemma LeftState(g: DepMap, state: map<Id, Colour>, path: seq<Id>)
    requires path != [] && Distinct(path) && IsOpen(state, path) && ClosedUnder(g, state)
    requires forall d :: d in Deps(g, path[|path|-1]) ==> d in state
    ensures var after := state[path[|path|-1] := Done]; IsOpen(after, path[..|path|-1]) && ClosedUnder(g, after)
  {
    var last := |path| - 1;
    assert path == path[..last] + [path[last]];
    assert path[last] !in path[..last];
  }

  lemma DepsMet(g: DepMap, state: map<Id, Colour>, path: seq<Id>, v: Id)
    requires SweptFrom(g, path, Deps(g, v), |Deps(g, v)|, state) && forall x :: x in path ==> x in state
    ensures forall d :: d in Deps(g, v) ==> d in state
  {
    forall d | d in Deps(g, v) ensures d in state {
      if d !in path {
        assert IsWalkPast(g, path, d, d, [d]);
        var b :| 0 <= b < |Deps(g, v)| && Deps(g, v)[b] == d;
        assert ReachesPast(g, path, Deps(g, v)[b], d);
      }
    }
  }

  lemma LeftCuts(g: DepMap, stories: seq<Id>, s: Search, path: seq<Id>, v: Id, t: Search)
    requires DoneCuts(g, stories, s) && path != [] && v == path[|path|-1] && IsFirstPath(g, stories, path, v)
    requires t.state == s.state[v := Done] && t.cut == s.cut
    requires forall d :: Edge(v, d) in s.cut <==> d in path && d in Deps(g, v)
    ensures DoneCuts(g, stories, t)
  {
    forall d ensures OnFirstPath(g, stories, v, d) <==> d in path {
      if p :| IsFirstPath(g, stories, p, v) && d in p { FirstPathUnique(g, stories, p, path, v); }
    }
    hide IsFirstPath, OnFirstPath;
  }

  lemma {:induction false} ExploreOrders(g: DepMap, stories: seq<Id>, s: Search, root: nat, path: seq<Id>, at: seq<nat>)
    requires |path| == |at| > 0 && Distinct(path) && Underway(g, stories, s, root, path, at)
    ensures Left(g, stories, s, path, Explore(g, s, path[|path|-1], at[|at|-1]))
    decreases AllDeps(g) - s.state.Keys, |Deps(g, path[|path|-1])| - at[|at|-1]
  {
    var v, n := path[|path|-1], at[|at|-1];
    hide Underway, Left, StepsTo, CutEdge, LeaveStory;
    if n >= |Deps(g, v)| {
      Leaves(g, stories, s, root, path, at);
    } else {
      var d := Deps(g, v)[n];
      var next := at[|at|-1 := n + 1];
      StepsHere(g, v, n);
      if d !in s.state {
        assert v in g && d in g[v] && d in AllDeps(g);
        var met := s.(state := s.state[d := Open]);
        GoesDeeper(g, stories, s, root, path, at, d);
        ExploreOrders(g, stories, met, root, path + [d], at + [0]);
        var below := Explore(g, met, d, 0);
        Returns(g, stories, s, root, path, at, d, below);
        ExploreOrders(g, stories, below, root, path, next);
        LeftAgain(g, stories, s, path, below, Explore(g, below, v, n + 1));
      } else {
        var t := if s.state[d] == Open then CutEdge(s, v, d) else s;
        PassesOver(g, stories, s, root, path, at, d);
        ExploreOrders(g, stories, t, root, path, next);
        CutLeaves(s, path, d);
        LeftAgain(g, stories, s, path, t, Explore(g, t, v, n + 1));
      }
    }
  }

  lemma StepsHere(g: DepMap, v: Id, n: nat)
    requires n < |Deps(g, v)|
    ensures StepsTo(g, v, n, Deps(g, v)[n])
  { }

  /** The cut of a back edge leaves the cuts of the stories further up. */
  ghost predicate KeepsAbove(s: Search, path: seq<Id>, t: Search)
    requires path != []
  {
    s.state.Keys <= t.state.Keys && forall e: Edge :: e.story in path[..|path|-1] ==> (e in t.cut <==> e in s.cut)
  }

  lemma CutLeaves(s: Search, path: seq<Id>, d: Id)
    requires path != [] && Distinct(path)
    ensures KeepsAbove(s, path, CutEdge(s, path[|path|-1], d)) && KeepsAbove(s, path, s)
  { }

  /** Back from below d: the path goes on with its next dependency. */
  lemma Returns(g: DepMap, stories: seq<Id>, s: Search, root: nat, path: seq<Id>, at: seq<nat>, d: Id, below: Search)
    requires Underway(g, stories, s, root, path, at) && d !in s.state && StepsTo(g, path[|path|-1], at[|at|-1], d)
    requires Left(g, stories, s.(state := s.state[d := Open]), path + [d], below)
    ensures Underway(g, stories, below, root, path, at[|at|-1 := at[|at|-1] + 1])
    ensures KeepsAbove(s, path, below) && d in below.state
  {
    assert (path + [d])[..|path|] == path;
    AllBelowMet(g, path, d, below.state);
    hide ClosedUnder, DoneCuts, SweptFrom;
    ComesBack(g, stories, s, root, path, at, d, below);
    hide Underway;
    assert forall x :: x in path[..|path|-1] ==> x in path;
  }

  lemma LeftAgain(g: DepMap, stories: seq<Id>, s: Search, path: seq<Id>, m: Search, t: Search)
    requires path != [] && KeepsAbove(s, path, m) && Left(g, stories, m, path, t)
    ensures Left(g, stories, s, path, t)
  {
    hide ClosedUnder, DoneCuts, SweptFrom, IsOpen;
  }

  /** Between two stories of the PRD order nothing is open, and everything the earlier ones reach has been met. */
  ghost predicate Between(g: DepMap, stories: seq<Id>, s: Search, k: nat) {
    IsOpen(s.state, []) && ClosedUnder(g, s.state) && DoneCuts(g, stories, s) && SweptFrom(g, [], stories, k, s.state)
  }

  lemma BeginsPath(g: DepMap, stories: seq<Id>, s: Search, k: nat)
    requires Between(g, stories, s, k) && k < |stories| && stories[k] !in s.state
    ensures Underway(g, stories, s.(state := s.state[stories[k] := Open]), k, [stories[k]], [0])
  {
    var v := stories[k];
    assert SkipsTo(g, [], stories, k, v);
    assert IsFirstPath(g, stories, [v], v);
    DeeperStays(g, stories, s, v);
    hide OnFirstPath, ReachesPast;
    assert CutSoFar(g, s.cut, v, [v], 0);
  }

  lemma NextStory(g: DepMap, stories: seq<Id>, state: map<Id, Colour>, k: nat)
    requires SweptFrom(g, [], stories, k, state) && k < |stories| && forall u :: ReachesPast(g, [], stories[k], u) ==> u in state
    ensures SweptFrom(g, [], stories, k + 1, state)
  {
    hide ReachesPast;
  }

  lemma MetBefore(g: DepMap, stories: seq<Id>, s: Search, k: nat)
    requires Between(g, stories, s, k) && k < |stories| && stories[k] in s.state
    ensures Between(g, stories, s, k + 1)
  {
    forall u | ReachesPast(g, [], stories[k], u) ensures u in s.state {
      var q :| IsWalkPast(g, [], stories[k], u, q);
      DoneReaches(g, s.state, [], stories[k], u, q);
    }
    NextStory(g, stories, s.state, k);
  }

  lemma {:induction false} AllOrdered(g: DepMap, stories: seq<Id>, s: Search, k: nat)
    requires Between(g, stories, s, k) && k <= |stories|
    ensures Between(g, stories, ExploreAll(g, s, stories[k..]), |stories|)
    decreases |stories| - k
  {
    if k < |stories| {
      var v := stories[k];
      assert stories[k..][1..] == stories[k+1..] && stories[k..][0] == v;
      if v in s.state {
        MetBefore(g, stories, s, k);
        AllOrdered(g, stories, s, k + 1);
      } else {
        var met := s.(state := s.state[v := Open]);
        BeginsPath(g, stories, s, k);
        hide Underway, ClosedUnder, DoneCuts;
        ExploreOrders(g, stories, met, k, [v], [0]);
        var t := Explore(g, met, v, 0);
        StoryDone(g, stories, s, k, t);
        AllOrdered(g, stories, t, k + 1);
      }
    }
  }

  lemma StoryDone(g: DepMap, stories: seq<Id>, s: Search, k: nat, t: Search)
    requires Between(g, stories, s, k) && k < |stories|
    requires Left(g, stories, s.(state := s.state[stories[k] := Open]), [stories[k]], t)
    ensures Between(g, stories, t, k + 1)
  {
    var v := stories[k];
    assert [] + [v] == [v] && [v][..0] == [];
    AllBelowMet(g, [], v, t.state);
    hide DoneCuts, ClosedUnder, ReachesPast;
    NextStory(g, stories, t.state, k);
  }

  /** Of every story the search meets, the edges it cuts are exactly those back to a story on its first path. */
  lemma CutExactlyWhen(g: DepMap, stories: seq<Id>, u: Id, d: Id)
    ensures var t := ExploreAll(g, Search(map[], map[], {}, []), stories);
      (Edge(u, d) in t.cut <==> u in t.state && d in Deps(g, u) && OnFirstPath(g, stories, u, d)) && (u in stories ==> u in t.state)
  {
    var start := Search(map[], map[], {}, []);
    assert Between(g, stories, start, 0);
    AllOrdered(g, stories, start, 0);
    assert stories[0..] == stories;
    var t := ExploreAll(g, start, stories);
    if k :| 0 <= k < |stories| && stories[k] == u {
      assert IsWalkPast(g, [], u, u, [u]);
      assert ReachesPast(g, [], stories[k], u);
    }
    hide ExploreAll, OnFirstPath;
  }

  /** A story none of the earlier ones reaches keeps every dependency but one on itself. */
  lemma UnreachedKeepsAll(g: DepMap, stories: seq<Id>, k: nat, d: Id)
    requires k < |stories| && forall j :: 0 <= j < k ==> !ReachesPast(g, [], stories[j], stories[k])
    ensures OnFirstPath(g, stories, stories[k], d) <==> d == stories[k]
  {
    var u := stories[k];
    assert SkipsTo(g, [], stories, k, u);
    assert IsFirstPath(g, stories, [u], u);
    if p :| IsFirstPath(g, stories, p, u) && d in p { FirstPathUnique(g, stories, p, [u], u); }
    assert u in [u];
  }
}

/** The whole story graph layout (apps/web/lib/fleet-story-graph.ts, `layoutStoryGraph`): known and unknown
    dependencies, the drawn edges, the columns and their barycentre order. */
module StoryLayout {
  import opened StoryGraph
  import opened StoryOrder

  datatype StoryRow = StoryRow(id: Id, title: string, dependsOn: seq<Id>)

  datatype StoryEdge = StoryEdge(from: Id, to: Id)

  datatype Layout = Layout(columns: seq<seq<StoryRow>>, edges: seq<StoryEdge>, unresolved: seq<UnresolvedDep>)

  function Ids(stories: seq<StoryRow>): (r: seq<Id>)
    ensures |r| == |stories| && forall i :: 0 <= i < |r| ==> r[i] == stories[i].id
  {
    seq(|stories|, i requires 0 <= i < |stories| => stories[i].id)
  }

  ghost predicate DistinctIds(stories: seq<StoryRow>) {
    forall i, j :: 0 <= i < j < |stories| ==> stories[i].id != stories[j].id
  }

  ghost predicate Carries(stories: seq<StoryRow>, id: Id) {
    exists i :: 0 <= i < |stories| && stories[i].id == id
  }

  lemma CarriesPrefix(stories: seq<StoryRow>, v: Id)
    requires |stories| > 0
    ensures Carries(stories, v) <==> Carries(stories[..|stories|-1], v) || stories[|stories|-1].id == v
  {
    var n := |stories| - 1;
    if i :| 0 <= i < n && stories[i].id == v { assert stories[..n][i].id == v; }
    if i :| 0 <= i < n && stories[..n][i].id == v { assert stories[i].id == v; }
  }

  /** The rows whose id no earlier row carries. */
  function FirstById(rows: seq<StoryRow>): (r: seq<StoryRow>)
    ensures DistinctIds(r)
    ensures forall i :: 0 <= i < |r| ==> r[i] in rows
  {
    if rows == [] then [] else
      var last := rows[|rows|-1];
      var kept := FirstById(rows[..|rows|-1]);
      if last.id in Ids(kept) then kept else kept + [last]
  }

  /** No id is lost, and each one is shown by the first row that carries it. */
  lemma {:induction false} FirstByIdKeepsFirst(rows: seq<StoryRow>, k: nat)
    requires k < |rows|
    ensures Carries(FirstById(rows), rows[k].id)
    ensures !Carries(rows[..k], rows[k].id) ==> rows[k] in FirstById(rows)
    decreases |rows|
  {
    var n := |rows| - 1;
    var kept := FirstById(rows[..n]);
    assert FirstById(rows) == if Carries(kept, rows[n].id) then kept else kept + [rows[n]];
    hide FirstById;
    CarriesPush(kept, rows[n], rows[k].id);
    if k < n {
      FirstByIdKeepsFirst(rows[..n], k);
      assert rows[..n][..k] == rows[..k] && rows[..n][k] == rows[k];
    }
  }

  lemma CarriesPush(kept: seq<StoryRow>, last: StoryRow, id: Id)
    ensures Carries(kept + [last], id) <==> Carries(kept, id) || last.id == id
  {
    CarriesPrefix(kept + [last], id);
    assert (kept + [last])[..|kept|] == kept;
  }

  function Known(deps: seq<Id>, ids: seq<Id>): (r: seq<Id>)
    ensures forall d :: d in r <==> d in deps && d in ids
  {
    if deps == [] then []
    else if deps[0] in ids then [deps[0]] + Known(deps[1..], ids)
    else Known(deps[1..], ids)
  }

  function DepsOf(stories: seq<StoryRow>, ids: seq<Id>): DepMap {
    if stories == [] then map[] else
      var last := stories[|stories|-1];
      DepsOf(stories[..|stories|-1], ids)[last.id := Known(last.dependsOn, ids)]
  }

  function UnknownDeps(story: Id, deps: seq<Id>, ids: seq<Id>): seq<UnresolvedDep> {
    if deps == [] then []
    else if deps[0] in ids then UnknownDeps(story, deps[1..], ids)
    else [UnresolvedDep(story, deps[0], Unknown)] + UnknownDeps(story, deps[1..], ids)
  }

  function AllUnknown(stories: seq<StoryRow>, ids: seq<Id>): seq<UnresolvedDep> {
    if stories == [] then [] else
      var last := stories[|stories|-1];
      AllUnknown(stories[..|stories|-1], ids) + UnknownDeps(last.id, last.dependsOn, ids)
  }

  function LiveDeps(depsOf: DepMap, cut: set<Edge>, id: Id): seq<Id> {
    KeptDeps(Deps(depsOf, id), id, cut)
  }

  function EdgesInto(id: Id, deps: seq<Id>): seq<StoryEdge> {
    if deps == [] then [] else [StoryEdge(deps[0], id)] + EdgesInto(id, deps[1..])
  }

  function DrawnEdges(stories: seq<StoryRow>, depsOf: DepMap, cut: set<Edge>): seq<StoryEdge> {
    if stories == [] then [] else
      var last := stories[|stories|-1];
      DrawnEdges(stories[..|stories|-1], depsOf, cut) + EdgesInto(last.id, LiveDeps(depsOf, cut, last.id))
  }

  function Layer(stories: seq<StoryRow>, columnOf: map<Id, nat>, column: nat): (r: seq<StoryRow>)
    ensures forall s :: s in r <==> s in stories && s.id in columnOf && columnOf[s.id] == column
  {
    if stories == [] then []
    else if stories[0].id in columnOf && columnOf[stories[0].id] == column then
      [stories[0]] + Layer(stories[1..], columnOf, column)
    else Layer(stories[1..], columnOf, column)
  }

  function Flatten<T>(columns: seq<seq<T>>): seq<T> {
    if columns == [] then [] else Flatten(columns[..|columns|-1]) + columns[|columns|-1]
  }

  // ---------------------------------------------------------------------------------------------
  // The barycentre order of one column
  // ---------------------------------------------------------------------------------------------

  /** Where a story already placed stands in its column; 0 when it is not placed. */
  function Position(placed: seq<seq<StoryRow>>, id: Id): nat {
    if placed == [] then 0
    else if id in Ids(placed[|placed|-1]) then IndexOf(placed[|placed|-1], id)
    else Position(placed[..|placed|-1], id)
  }

  function IndexOf(column: seq<StoryRow>, id: Id): (k: nat)
    requires id in Ids(column)
    ensures k < |column| && column[k].id == id
  {
    if column[|column|-1].id == id then |column|-1
    else
      assert exists i :: 0 <= i < |column| && Ids(column)[i] == id;
      assert forall i :: 0 <= i < |column| - 1 ==> Ids(column[..|column|-1])[i] == Ids(column)[i];
      IndexOf(column[..|column|-1], id)
  }

  function SumPositions(placed: seq<seq<StoryRow>>, deps: seq<Id>): nat {
    if deps == [] then 0 else Position(placed, deps[0]) + SumPositions(placed, deps[1..])
  }

  /** The mean position of the dependencies a story keeps. */
  function Weight(placed: seq<seq<StoryRow>>, deps: seq<Id>): real {
    if |deps| == 0 then 0.0 else SumPositions(placed, deps) as real / |deps| as real
  }

  function PrdIndex(stories: seq<StoryRow>, s: StoryRow): nat {
    if s.id in Ids(stories) then IndexOf(stories, s.id) else 0
  }

  /** What one column is sorted by: the columns already placed to its left, and the PRD order of the stories. */
  datatype Order = Order(stories: seq<StoryRow>, placed: seq<seq<StoryRow>>, depsOf: DepMap, cut: set<Edge>) {

    function WeightOf(s: StoryRow): real {
      Weight(placed, LiveDeps(depsOf, cut, s.id))
    }

    predicate Before(a: StoryRow, b: StoryRow) {
      WeightOf(a) < WeightOf(b) || (WeightOf(a) == WeightOf(b) && PrdIndex(stories, a) <= PrdIndex(stories, b))
    }

    /** Mean dependency position first, PRD order on ties. */
    ghost predicate Sorted(column: seq<StoryRow>) {
      forall i, j :: 0 <= i < j < |column| ==> Before(column[i], column[j])
    }

    function Insert(x: StoryRow, s: seq<StoryRow>): (r: seq<StoryRow>)
      ensures multiset(r) == multiset(s) + multiset{x}
    {
      if s == [] then [x]
      else if Before(x, s[0]) then [x] + s
      else
        assert s == [s[0]] + s[1..];
        [s[0]] + Insert(x, s[1..])
    }

    function Sort(s: seq<StoryRow>): (r: seq<StoryRow>)
      ensures multiset(r) == multiset(s)
    {
      if s == [] then [] else
        assert s == s[..|s|-1] + [s[|s|-1]];
        Insert(s[|s|-1], Sort(s[..|s|-1]))
    }

    lemma {:induction false} InsertSorted(x: StoryRow, s: seq<StoryRow>)
      requires Sorted(s)
      ensures Sorted(Insert(x, s))
      decreases |s|
    {
      if s != [] && !Before(x, s[0]) {
        InsertSorted(x, s[1..]);
        var rest := Insert(x, s[1..]);
        assert Before(s[0], x);
        hide Order.Before;
        forall j | 0 <= j < |rest| ensures Before(s[0], rest[j]) {
          assert rest[j] in multiset(rest);
        }
      }
    }

    lemma {:induction false} SortSorted(s: seq<StoryRow>)
      ensures Sorted(Sort(s))
      decreases |s|
    {
      if s != [] {
        SortSorted(s[..|s|-1]);
        InsertSorted(s[|s|-1], Sort(s[..|s|-1]));
      }
    }
  }

  // ---------------------------------------------------------------------------------------------
  // Every declared occurrence is drawn once or reported once
  // ---------------------------------------------------------------------------------------------

  /** What the story with id v declares; nothing when there is no such story. */
  function DependsOn(stories: seq<StoryRow>, v: Id): seq<Id> {
    if stories == [] then []
    else if stories[|stories|-1].id == v then stories[|stories|-1].dependsOn
    else DependsOn(stories[..|stories|-1], v)
  }

  lemma {:induction false} DepsOfKnows(stories: seq<StoryRow>, ids: seq<Id>, v: Id)
    ensures Deps(DepsOf(stories, ids), v) == Known(DependsOn(stories, v), ids)
    ensures v in DepsOf(stories, ids) <==> Carries(stories, v)
    decreases |stories|
  {
    if stories != [] {
      var n := |stories| - 1;
      DepsOfKnows(stories[..n], ids, v);
      CarriesPrefix(stories, v);
    }
  }

  lemma {:induction false} KnownCount(deps: seq<Id>, ids: seq<Id>, d: Id)
    ensures multiset(Known(deps, ids))[d] == if d in ids then multiset(deps)[d] else 0
    decreases |deps|
  {
    if deps != [] {
      assert deps == [deps[0]] + deps[1..];
      KnownCount(deps[1..], ids, d);
    }
  }

  lemma {:induction false} UnknownCount(v: Id, deps: seq<Id>, ids: seq<Id>, u: UnresolvedDep)
    ensures multiset(UnknownDeps(v, deps, ids))[u] ==
      if u.story == v && u.reason == Unknown && u.dep !in ids then multiset(deps)[u.dep] else 0
    decreases |deps|
  {
    if deps != [] {
      assert deps == [deps[0]] + deps[1..];
      UnknownCount(v, deps[1..], ids, u);
    }
  }

  lemma {:induction false} KeptCount(deps: seq<Id>, v: Id, cut: set<Edge>, d: Id)
    ensures multiset(KeptDeps(deps, v, cut))[d] == if Edge(v, d) in cut then 0 else multiset(deps)[d]
    decreases |deps|
  {
    if deps != [] {
      assert deps == [deps[0]] + deps[1..];
      KeptCount(deps[1..], v, cut, d);
    }
  }

  lemma {:induction false} EdgesIntoCount(v: Id, deps: seq<Id>, e: StoryEdge)
    ensures multiset(EdgesInto(v, deps))[e] == if e.to == v then multiset(deps)[e.from] else 0
    decreases |deps|
  {
    if deps != [] {
      assert deps == [deps[0]] + deps[1..];
      EdgesIntoCount(v, deps[1..], e);
    }
  }

  lemma {:induction false} AllUnknownCount(stories: seq<StoryRow>, ids: seq<Id>, u: UnresolvedDep)
    requires DistinctIds(stories)
    ensures multiset(AllUnknown(stories, ids))[u] ==
      if u.reason == Unknown && u.dep !in ids then multiset(DependsOn(stories, u.story))[u.dep] else 0
    decreases |stories|
  {
    if stories != [] {
      var n := |stories| - 1;
      AllUnknownCount(stories[..n], ids, u);
      UnknownCount(stories[n].id, stories[n].dependsOn, ids, u);
      if u.story == stories[n].id { NotCarried(stories[..n], u.story); }
    }
  }

  lemma {:induction false} NotCarried(stories: seq<StoryRow>, v: Id)
    requires !Carries(stories, v)
    ensures DependsOn(stories, v) == []
    decreases |stories|
  {
    if stories != [] {
      CarriesPrefix(stories, v);
      NotCarried(stories[..|stories|-1], v);
    }
  }

  lemma {:induction false} DrawnCount(stories: seq<StoryRow>, depsOf: DepMap, cut: set<Edge>, e: StoryEdge)
    requires DistinctIds(stories)
    ensures multiset(DrawnEdges(stories, depsOf, cut))[e] ==
      if Carries(stories, e.to) then multiset(LiveDeps(depsOf, cut, e.to))[e.from] else 0
    decreases |stories|
  {
    if stories != [] {
      var n := |stories| - 1;
      DrawnCount(stories[..n], depsOf, cut, e);
      EdgesIntoCount(stories[n].id, LiveDeps(depsOf, cut, stories[n].id), e);
      CarriesPrefix(stories, e.to);
    }
  }

  /** How often `edges` and `unresolved` together mention the dependency of v on d. */
  ghost function Mentions(edges: seq<StoryEdge>, unresolved: seq<UnresolvedDep>, v: Id, d: Id): nat {
    multiset(edges)[StoryEdge(d, v)]
    + multiset(unresolved)[UnresolvedDep(v, d, Unknown)] + multiset(unresolved)[UnresolvedDep(v, d, Cycle)]
  }

  lemma Conserved(stories: seq<StoryRow>, cut: set<Edge>, cycles: seq<UnresolvedDep>, v: Id, d: Id)
    requires DistinctIds(stories)
    requires forall k :: 0 <= k < |cycles| ==> cycles[k].reason == Cycle
    requires multiset(cycles)[UnresolvedDep(v, d, Cycle)] ==
      if Edge(v, d) in cut then multiset(Deps(DepsOf(stories, Ids(stories)), v))[d] else 0
    ensures Mentions(DrawnEdges(stories, DepsOf(stories, Ids(stories)), cut), AllUnknown(stories, Ids(stories)) + cycles, v, d)
      == multiset(DependsOn(stories, v))[d]
  {
    var ids := Ids(stories);
    var depsOf := DepsOf(stories, ids);
    DepsOfKnows(stories, ids, v);
    KnownCount(DependsOn(stories, v), ids, d);
    KeptCount(Deps(depsOf, v), v, cut, d);
    DrawnCount(stories, depsOf, cut, StoryEdge(d, v));
    AllUnknownCount(stories, ids, UnresolvedDep(v, d, Unknown));
    AllUnknownCount(stories, ids, UnresolvedDep(v, d, Cycle));
    assert multiset(cycles)[UnresolvedDep(v, d, Unknown)] == 0;
    if !Carries(stories, v) { NotCarried(stories, v); }
  }

  // ---------------------------------------------------------------------------------------------
  // The columns
  // ---------------------------------------------------------------------------------------------

  /** The drawn edges, as pairs of a story and its dependency. */
  ghost function Pairs(edges: seq<StoryEdge>): set<Edge> {
    set e | e in edges :: Edge(e.to, e.from)
  }

  lemma PairsAreKept(stories: seq<StoryRow>, cut: set<Edge>)
    requires DistinctIds(stories)
    ensures var depsOf := DepsOf(stories, Ids(stories));
      Pairs(DrawnEdges(stories, depsOf, cut)) == Declared(depsOf) - cut
  {
    var depsOf := DepsOf(stories, Ids(stories));
    var drawn := DrawnEdges(stories, depsOf, cut);
    forall v, d ensures Edge(v, d) in Pairs(drawn) <==> Edge(v, d) in Declared(depsOf) - cut {
      var e := StoryEdge(d, v);
      DrawnCount(stories, depsOf, cut, e);
      DepsOfKnows(stories, Ids(stories), v);
      DeclaredEdge(depsOf, v, d);
      assert e in drawn <==> multiset(drawn)[e] > 0;
      var live := LiveDeps(depsOf, cut, v);
      assert d in live <==> multiset(live)[d] > 0;
      if Edge(v, d) in Pairs(drawn) { assert e in drawn; }
    }
    forall e ensures e in Pairs(drawn) <==> e in Declared(depsOf) - cut {
      assert e == Edge(e.story, e.dep);
    }
  }

  function Below(stories: seq<StoryRow>, columnOf: map<Id, nat>, column: nat): seq<StoryRow> {
    if stories == [] then []
    else if stories[0].id in columnOf && columnOf[stories[0].id] < column then
      [stories[0]] + Below(stories[1..], columnOf, column)
    else Below(stories[1..], columnOf, column)
  }

  lemma {:induction false} OneMoreLayer(stories: seq<StoryRow>, columnOf: map<Id, nat>, column: nat)
    ensures multiset(Below(stories, columnOf, column + 1))
      == multiset(Below(stories, columnOf, column)) + multiset(Layer(stories, columnOf, column))
    decreases |stories|
  {
    if stories != [] { OneMoreLayer(stories[1..], columnOf, column); }
  }

  lemma {:induction false} NothingBelowZero(stories: seq<StoryRow>, columnOf: map<Id, nat>)
    ensures Below(stories, columnOf, 0) == []
    decreases |stories|
  {
    if stories != [] { NothingBelowZero(stories[1..], columnOf); }
  }

  lemma {:induction false} AllBelow(stories: seq<StoryRow>, columnOf: map<Id, nat>, width: nat)
    requires forall s :: s in stories ==> s.id in columnOf && columnOf[s.id] < width
    ensures Below(stories, columnOf, width) == stories
    decreases |stories|
  {
    if stories != [] {
      assert forall s :: s in stories[1..] ==> s in stories;
      AllBelow(stories[1..], columnOf, width);
    }
  }

  /** A story in a later column keeps a dependency one column earlier, so no column in between is empty. */
  lemma {:induction false} NoEmptyLayer(stories: seq<StoryRow>, cut: set<Edge>, columnOf: map<Id, nat>, s: StoryRow, column: nat)
    requires Layered(DepsOf(stories, Ids(stories)), cut, columnOf)
    requires s in stories && s.id in columnOf && column <= columnOf[s.id]
    ensures |Layer(stories, columnOf, column)| > 0
    decreases columnOf[s.id]
  {
    if columnOf[s.id] == column {
      assert s in Layer(stories, columnOf, column);
    } else {
      var depsOf := DepsOf(stories, Ids(stories));
      assert OnePastDeepest(depsOf, cut, columnOf, s.id);
      var d :| d in Deps(depsOf, s.id) && Edge(s.id, d) !in cut && d in columnOf && columnOf[d] + 1 == columnOf[s.id];
      DepsOfKnows(stories, Ids(stories), s.id);
      var i :| 0 <= i < |stories| && stories[i].id == d;
      NoEmptyLayer(stories, cut, columnOf, stories[i], column);
    }
  }

  // ---------------------------------------------------------------------------------------------
  // Cycles are reported exactly when there are any
  // ---------------------------------------------------------------------------------------------

  /** A layered graph has no cycle among the stories it places. */
  lemma LayeredIsAcyclic(g: DepMap, cut: set<Edge>, columnOf: map<Id, nat>)
    requires Layered(g, cut, columnOf)
    requires forall v :: v in g ==> v in columnOf
    ensures Acyclic(Declared(g) - cut)
  {
    forall p | Chain(Declared(g) - cut, p) && |p| > 1 ensures p[0] != p[|p|-1] {
      assert Edge(p[0], p[1]) in Declared(g);
      ChainDescends(g, cut, columnOf, p);
    }
  }

  /** A cut edge with its way back is a cycle of the declared dependencies. */
  lemma CutIsOnCycle(g: DepMap, cut: set<Edge>, e: Edge)
    requires e in Declared(g) && Reaches(Declared(g) - cut, e.dep, e.story)
    ensures !Acyclic(Declared(g))
  {
    var p :| ChainBetween(Declared(g) - cut, e.dep, e.story, p);
    var q := [e.story] + p;
    forall k | 0 < k < |q| ensures Edge(q[k-1], q[k]) in Declared(g) {
      if k > 1 { assert Edge(p[k-2], p[k-1]) in Declared(g) - cut; }
    }
    assert Chain(Declared(g), q) && q[0] == q[|q|-1];
  }

  // ---------------------------------------------------------------------------------------------
  // The layout
  // ---------------------------------------------------------------------------------------------

  ghost function KnownDeps(rows: seq<StoryRow>): DepMap {
    DepsOf(FirstById(rows), Ids(FirstById(rows)))
  }

  /** The columns partition the stories and none is empty. */
  ghost predicate Partitions(columns: seq<seq<StoryRow>>, stories: seq<StoryRow>) {
    && multiset(Flatten(columns)) == multiset(stories)
    && (forall c :: 0 <= c < |columns| ==> |columns[c]| > 0)
  }

  /** A story's column is the length of its longest chain of drawn edges. */
  ghost predicate LongestPathColumns(columns: seq<seq<StoryRow>>, drawn: set<Edge>) {
    forall c, k :: 0 <= c < |columns| && 0 <= k < |columns[c]| ==> LongestFrom(drawn, columns[c][k].id, c)
  }

  /** Every column is in barycentre order of the columns placed before it; the first is in PRD order. */
  ghost predicate InBarycentreOrder(stories: seq<StoryRow>, depsOf: DepMap, cut: set<Edge>, columns: seq<seq<StoryRow>>) {
    forall c :: 0 <= c < |columns| ==> Order(stories, columns[..c], depsOf, cut).Sorted(columns[c])
  }

  /** Only a dependency that is no story is unknown; only one with a drawn way back to its story is a cycle. */
  ghost predicate ReportsTruly(layout: Layout, stories: seq<StoryRow>) {
    && (forall u :: u in layout.unresolved && u.reason == Unknown ==> u.dep !in Ids(stories))
    && (forall u :: u in layout.unresolved && u.reason == Cycle ==>
          u.dep in Ids(stories) && Reaches(Pairs(layout.edges), u.dep, u.story))
  }

  /** The story with this id stands at place k of one of the columns. */
  ghost predicate StandsAt(columns: seq<seq<StoryRow>>, id: Id, k: nat) {
    exists c :: 0 <= c < |columns| && k < |columns[c]| && columns[c][k].id == id
  }

  ghost predicate IsPlaced(columns: seq<seq<StoryRow>>, id: Id) { exists k :: StandsAt(columns, id, k) }

  function Sum(xs: seq<nat>): nat {
    if xs == [] then 0 else xs[0] + Sum(xs[1..])
  }

  /** w is the mean of the places these dependencies stand at; 0 when there are none. */
  ghost predicate IsMean(columns: seq<seq<StoryRow>>, deps: seq<Id>, w: real) {
    if deps == [] then w == 0.0 else exists at :: ArePlaces(columns, deps, at) && IsShare(w, |deps|, Sum(at))
  }

  /** n times w is the total. */
  predicate IsShare(w: real, n: nat, total: nat) { w * (n as real) == total as real }

  ghost predicate ArePlaces(columns: seq<seq<StoryRow>>, deps: seq<Id>, at: seq<nat>) {
    |at| == |deps| && forall i :: 0 <= i < |at| ==> StandsAt(columns, deps[i], at[i])
  }

  ghost predicate ComesFirst(stories: seq<StoryRow>, x: StoryRow, y: StoryRow) {
    exists a, b :: 0 <= a <= b < |stories| && stories[a] == x && stories[b] == y
  }

  /** The dependencies of x stand further up on the average than those of y, or as far up, and x comes first in the PRD. */
  ghost predicate MeanRises(stories: seq<StoryRow>, placed: seq<seq<StoryRow>>, x: StoryRow, y: StoryRow, ofX: seq<Id>, ofY: seq<Id>) {
    exists v, w :: IsMean(placed, ofX, v) && IsMean(placed, ofY, w) && (v < w || (v == w && ComesFirst(stories, x, y)))
  }

  /** Each column is ordered by the mean place of the kept dependencies in the columns to its left. */
  ghost predicate RiseByMean(stories: seq<StoryRow>, depsOf: DepMap, cut: set<Edge>, columns: seq<seq<StoryRow>>) {
    forall c, i, j :: 0 <= c < |columns| && 0 <= i < j < |columns[c]| ==>
      MeanRises(stories, columns[..c], columns[c][i], columns[c][j],
                LiveDeps(depsOf, cut, columns[c][i].id), LiveDeps(depsOf, cut, columns[c][j].id))
  }

  lemma {:induction false} PositionStands(placed: seq<seq<StoryRow>>, id: Id, k: nat)
    requires StandsAt(placed, id, k)
    ensures StandsAt(placed, id, Position(placed, id))
    decreases |placed|
  {
    var n := |placed| - 1;
    var c :| 0 <= c < |placed| && k < |placed[c]| && placed[c][k].id == id;
    assert Ids(placed[c])[k] == id;
    if id in Ids(placed[n]) {
      assert placed[n][IndexOf(placed[n], id)].id == id;
    } else {
      assert placed[..n][c] == placed[c];
      PositionStands(placed[..n], id, k);
      var d :| 0 <= d < n && Position(placed[..n], id) < |placed[..n][d]| && placed[..n][d][Position(placed[..n], id)].id == id;
      assert placed[d] == placed[..n][d];
    }
  }

  lemma {:induction false} PlacesOf(placed: seq<seq<StoryRow>>, deps: seq<Id>) returns (at: seq<nat>)
    requires forall i :: 0 <= i < |deps| ==> IsPlaced(placed, deps[i])
    ensures ArePlaces(placed, deps, at) && Sum(at) == SumPositions(placed, deps)
    decreases |deps|
  {
    at := [];
    if deps != [] {
      assert IsPlaced(placed, deps[0]);
      var rest := PlacesOf(placed, deps[1..]);
      var k :| StandsAt(placed, deps[0], k);
      PositionStands(placed, deps[0], k);
      at := [Position(placed, deps[0])] + rest;
      hide StandsAt, Position;
    }
  }

  lemma WeightIsMean(placed: seq<seq<StoryRow>>, deps: seq<Id>)
    requires forall i :: 0 <= i < |deps| ==> IsPlaced(placed, deps[i])
    ensures IsMean(placed, deps, Weight(placed, deps))
  {
    var at := PlacesOf(placed, deps);
    WeightTimes(placed, deps);
    hide SumPositions, ArePlaces, Sum, Weight, IsShare;
    if deps != [] { assert ArePlaces(placed, deps, at) && IsShare(Weight(placed, deps), |deps|, Sum(at)); }
  }

  lemma WeightTimes(placed: seq<seq<StoryRow>>, deps: seq<Id>)
    ensures if deps == [] then Weight(placed, deps) == 0.0 else IsShare(Weight(placed, deps), |deps|, SumPositions(placed, deps))
  {
    hide SumPositions;
    if deps != [] { MeanTimes(SumPositions(placed, deps), |deps|); }
  }

  lemma MeanTimes(s: nat, n: nat)
    requires n > 0
    ensures (s as real / n as real) * (n as real) == s as real
  { }

  /** What a story keeps stands in the columns to its left. */
  lemma DepsArePlaced(stories: seq<StoryRow>, columnOf: map<Id, nat>, depsOf: DepMap, cut: set<Edge>, columns: seq<seq<StoryRow>>,
                      c: nat, s: StoryRow, d: Id)
    requires depsOf == DepsOf(stories, Ids(stories)) && Layered(depsOf, cut, columnOf) && s.id in columnOf
    requires c <= |columns| && columnOf[s.id] == c && d in LiveDeps(depsOf, cut, s.id)
    requires forall b :: 0 <= b < |columns| ==> multiset(columns[b]) == multiset(Layer(stories, columnOf, b))
    ensures IsPlaced(columns[..c], d)
  {
    assert OnePastDeepest(depsOf, cut, columnOf, s.id);
    DepsOfKnows(stories, Ids(stories), s.id);
    var i :| 0 <= i < |stories| && Ids(stories)[i] == d;
    var b := columnOf[d];
    assert stories[i] in Layer(stories, columnOf, b);
    assert stories[i] in multiset(Layer(stories, columnOf, b));
    assert stories[i] in columns[b];
    var k :| 0 <= k < |columns[b]| && columns[b][k] == stories[i];
    assert columns[..c][b] == columns[b];
    assert StandsAt(columns[..c], d, k);
  }

  lemma ColumnsRise(stories: seq<StoryRow>, columnOf: map<Id, nat>, depsOf: DepMap, cut: set<Edge>, columns: seq<seq<StoryRow>>)
    requires depsOf == DepsOf(stories, Ids(stories)) && Layered(depsOf, cut, columnOf)
    requires forall c :: 0 <= c < |columns| ==> multiset(columns[c]) == multiset(Layer(stories, columnOf, c))
    requires InBarycentreOrder(stories, depsOf, cut, columns) && DistinctIds(stories)
    ensures RiseByMean(stories, depsOf, cut, columns)
  {
    forall c, i, j | 0 <= c < |columns| && 0 <= i < j < |columns[c]|
      ensures MeanRises(stories, columns[..c], columns[c][i], columns[c][j],
                        LiveDeps(depsOf, cut, columns[c][i].id), LiveDeps(depsOf, cut, columns[c][j].id))
    {
      var x, y := columns[c][i], columns[c][j];
      RowMean(stories, columnOf, depsOf, cut, columns, c, x);
      RowMean(stories, columnOf, depsOf, cut, columns, c, y);
      assert Order(stories, columns[..c], depsOf, cut).Sorted(columns[c]);
      hide InBarycentreOrder, Layered, IsMean;
      OrderedIsRising(stories, columns[..c], depsOf, cut, x, y);
    }
  }

  lemma RowMean(stories: seq<StoryRow>, columnOf: map<Id, nat>, depsOf: DepMap, cut: set<Edge>, columns: seq<seq<StoryRow>>, c: nat, x: StoryRow)
    requires depsOf == DepsOf(stories, Ids(stories)) && Layered(depsOf, cut, columnOf)
    requires forall b :: 0 <= b < |columns| ==> multiset(columns[b]) == multiset(Layer(stories, columnOf, b))
    requires c < |columns| && x in columns[c]
    ensures x in stories && IsMean(columns[..c], LiveDeps(depsOf, cut, x.id), Weight(columns[..c], LiveDeps(depsOf, cut, x.id)))
  {
    assert x in multiset(columns[c]);
    assert x in Layer(stories, columnOf, c);
    hide Layered, IsMean, Weight, StandsAt, LiveDeps;
    var deps := LiveDeps(depsOf, cut, x.id);
    forall i | 0 <= i < |deps| ensures IsPlaced(columns[..c], deps[i]) {
      DepsArePlaced(stories, columnOf, depsOf, cut, columns, c, x, deps[i]);
    }
    WeightIsMean(columns[..c], LiveDeps(depsOf, cut, x.id));
  }

  lemma OrderedIsRising(stories: seq<StoryRow>, placed: seq<seq<StoryRow>>, depsOf: DepMap, cut: set<Edge>, x: StoryRow, y: StoryRow)
    requires DistinctIds(stories) && x in stories && y in stories && Order(stories, placed, depsOf, cut).Before(x, y)
    requires IsMean(placed, LiveDeps(depsOf, cut, x.id), Weight(placed, LiveDeps(depsOf, cut, x.id)))
    requires IsMean(placed, LiveDeps(depsOf, cut, y.id), Weight(placed, LiveDeps(depsOf, cut, y.id)))
    ensures MeanRises(stories, placed, x, y, LiveDeps(depsOf, cut, x.id), LiveDeps(depsOf, cut, y.id))
  {
    PrdPlace(stories, x);
    PrdPlace(stories, y);
    hide IsMean, Weight, LiveDeps, PrdIndex;
  }

  lemma PrdPlace(stories: seq<StoryRow>, x: StoryRow)
    requires DistinctIds(stories) && x in stories
    ensures PrdIndex(stories, x) < |stories| && stories[PrdIndex(stories, x)] == x
  {
    var i :| 0 <= i < |stories| && stories[i] == x;
    assert Ids(stories)[i] == x.id;
  }

  // ---------------------------------------------------------------------------------------------
  // In which order edges are drawn and unknown dependencies reported
  // ---------------------------------------------------------------------------------------------

  ghost predicate NoLater(stories: seq<StoryRow>, x: Id, y: Id) {
    exists a, b :: 0 <= a <= b < |stories| && stories[a].id == x && stories[b].id == y
  }

  /** The stories these belong to come in PRD order. */
  ghost predicate InPrdOrder(stories: seq<StoryRow>, of: seq<Id>) {
    forall i, j :: 0 <= i < j < |of| ==> NoLater(stories, of[i], of[j])
  }

  function Targets(edges: seq<StoryEdge>): (r: seq<Id>)
    ensures |r| == |edges| && forall i :: 0 <= i < |r| ==> r[i] == edges[i].to
  {
    seq(|edges|, i requires 0 <= i < |edges| => edges[i].to)
  }

  function Reporters(reports: seq<UnresolvedDep>): (r: seq<Id>)
    ensures |r| == |reports| && forall i :: 0 <= i < |r| ==> r[i] == reports[i].story
  {
    seq(|reports|, i requires 0 <= i < |reports| => reports[i].story)
  }

  /** The dependencies drawn into v, in the order they are drawn. */
  function DrawnInto(edges: seq<StoryEdge>, v: Id): seq<Id> {
    if edges == [] then []
    else DrawnInto(edges[..|edges|-1], v) + (if edges[|edges|-1].to == v then [edges[|edges|-1].from] else [])
  }

  function ReportedFor(reports: seq<UnresolvedDep>, v: Id): seq<Id> {
    if reports == [] then []
    else ReportedFor(reports[..|reports|-1], v) + (if reports[|reports|-1].story == v then [reports[|reports|-1].dep] else [])
  }

  /** The others of the declared dependencies, in declared order. */
  function NotIn(deps: seq<Id>, ids: seq<Id>): seq<Id> {
    if deps == [] then [] else if deps[0] in ids then NotIn(deps[1..], ids) else [deps[0]] + NotIn(deps[1..], ids)
  }

  lemma {:induction false} DrawnAppend(x: seq<StoryEdge>, y: seq<StoryEdge>, v: Id)
    ensures DrawnInto(x + y, v) == DrawnInto(x, v) + DrawnInto(y, v)
    decreases |y|
  {
    if y == [] {
      assert x + y == x;
    } else {
      assert (x + y)[..|x + y|-1] == x + y[..|y|-1];
      DrawnAppend(x, y[..|y|-1], v);
    }
  }

  lemma {:induction false} ReportedAppend(x: seq<UnresolvedDep>, y: seq<UnresolvedDep>, v: Id)
    ensures ReportedFor(x + y, v) == ReportedFor(x, v) + ReportedFor(y, v)
    decreases |y|
  {
    if y == [] {
      assert x + y == x;
    } else {
      assert (x + y)[..|x + y|-1] == x + y[..|y|-1];
      ReportedAppend(x, y[..|y|-1], v);
    }
  }

  lemma {:induction false} DrawnIntoOne(id: Id, deps: seq<Id>, v: Id)
    ensures DrawnInto(EdgesInto(id, deps), v) == if v == id then deps else []
    ensures forall i :: 0 <= i < |EdgesInto(id, deps)| ==> EdgesInto(id, deps)[i].to == id
    decreases |deps|
  {
    if deps != [] {
      DrawnIntoOne(id, deps[1..], v);
      DrawnAppend([StoryEdge(deps[0], id)], EdgesInto(id, deps[1..]), v);
      assert [StoryEdge(deps[0], id)][..0] == [];
      assert DrawnInto([StoryEdge(deps[0], id)], v) == if v == id then [deps[0]] else [];
    }
  }

  lemma {:induction false} ReportedForOne(id: Id, deps: seq<Id>, ids: seq<Id>, v: Id)
    ensures ReportedFor(UnknownDeps(id, deps, ids), v) == if v == id then NotIn(deps, ids) else []
    ensures forall i :: 0 <= i < |UnknownDeps(id, deps, ids)| ==> UnknownDeps(id, deps, ids)[i].story == id
    decreases |deps|
  {
    if deps != [] {
      ReportedForOne(id, deps[1..], ids, v);
      var u := UnresolvedDep(id, deps[0], Unknown);
      ReportedAppend([u], UnknownDeps(id, deps[1..], ids), v);
      assert [u][..0] == [];
      assert ReportedFor([u], v) == if v == id then [deps[0]] else [];
    }
  }

  /** Those of the dependencies that are drawn, in declared order. */
  ghost function DrawnAmong(deps: seq<Id>, v: Id, drawn: set<Edge>): seq<Id> {
    if deps == [] then []
    else (if Edge(v, deps[0]) in drawn then [deps[0]] else []) + DrawnAmong(deps[1..], v, drawn)
  }

  /** The edges are drawn story by story, and for a story in the order it declares what it keeps. */
  ghost predicate EdgesListed(stories: seq<StoryRow>, edges: seq<StoryEdge>) {
    && InPrdOrder(stories, Targets(edges))
    && forall v :: DrawnInto(edges, v) == DrawnAmong(DependsOn(stories, v), v, Pairs(edges))
  }

  lemma {:induction false} DrawnIsKept(deps: seq<Id>, ids: seq<Id>, v: Id, cut: set<Edge>, drawn: set<Edge>)
    requires forall d :: d in deps ==> (Edge(v, d) in drawn <==> d in ids && Edge(v, d) !in cut)
    ensures DrawnAmong(deps, v, drawn) == KeptDeps(Known(deps, ids), v, cut)
    decreases |deps|
  {
    if deps != [] {
      DrawnIsKept(deps[1..], ids, v, cut, drawn);
      assert deps[0] in deps;
      if deps[0] in ids {
        var known := Known(deps[1..], ids);
        assert ([deps[0]] + known)[1..] == known;
      }
    }
  }

  /** The same for what is reported as unknown. */
  ghost predicate UnknownListed(stories: seq<StoryRow>, unknown: seq<UnresolvedDep>) {
    && InPrdOrder(stories, Reporters(unknown))
    && forall v :: ReportedFor(unknown, v) == NotIn(DependsOn(stories, v), Ids(stories))
  }

  lemma NotTwice(stories: seq<StoryRow>, v: Id)
    requires DistinctIds(stories) && stories != [] && Carries(stories[..|stories|-1], v)
    ensures v != stories[|stories|-1].id
  {
    var n := |stories| - 1;
    var i :| 0 <= i < n && stories[..n][i].id == v;
    assert stories[i].id != stories[n].id;
  }

  lemma {:induction false} DrawnOf(stories: seq<StoryRow>, depsOf: DepMap, cut: set<Edge>, v: Id)
    requires DistinctIds(stories)
    ensures DrawnInto(DrawnEdges(stories, depsOf, cut), v) == if Carries(stories, v) then LiveDeps(depsOf, cut, v) else []
    decreases |stories|
  {
    if stories != [] {
      var n := |stories| - 1;
      var id := stories[n].id;
      DrawnOf(stories[..n], depsOf, cut, v);
      DrawnIntoOne(id, LiveDeps(depsOf, cut, id), v);
      DrawnAppend(DrawnEdges(stories[..n], depsOf, cut), EdgesInto(id, LiveDeps(depsOf, cut, id)), v);
      CarriesPrefix(stories, v);
      if Carries(stories[..n], v) { NotTwice(stories, v); }
      hide DrawnInto, LiveDeps, EdgesInto, Carries;
    }
  }

  lemma {:induction false} DrawnOrder(stories: seq<StoryRow>, depsOf: DepMap, cut: set<Edge>)
    ensures InPrdOrder(stories, Targets(DrawnEdges(stories, depsOf, cut)))
    ensures AllCarried(stories, Targets(DrawnEdges(stories, depsOf, cut)))
    decreases |stories|
  {
    if stories != [] {
      var n := |stories| - 1;
      var id := stories[n].id;
      var before, own := DrawnEdges(stories[..n], depsOf, cut), EdgesInto(id, LiveDeps(depsOf, cut, id));
      DrawnOrder(stories[..n], depsOf, cut);
      DrawnIntoOne(id, LiveDeps(depsOf, cut, id), id);
      assert Targets(before + own) == Targets(before) + Targets(own);
      hide InPrdOrder, AllCarried, EdgesInto;
      OneMoreInOrder(stories, Targets(before), Targets(own));
    }
  }

  ghost predicate AllCarried(stories: seq<StoryRow>, of: seq<Id>) { forall i :: 0 <= i < |of| ==> Carries(stories, of[i]) }

  lemma {:induction false} UnknownOf(stories: seq<StoryRow>, ids: seq<Id>, v: Id)
    requires DistinctIds(stories)
    ensures ReportedFor(AllUnknown(stories, ids), v) == NotIn(DependsOn(stories, v), ids)
    ensures !Carries(stories, v) ==> DependsOn(stories, v) == []
    decreases |stories|
  {
    if stories != [] {
      var n := |stories| - 1;
      var last := stories[n];
      UnknownOf(stories[..n], ids, v);
      ReportedForOne(last.id, last.dependsOn, ids, v);
      ReportedAppend(AllUnknown(stories[..n], ids), UnknownDeps(last.id, last.dependsOn, ids), v);
      CarriesPrefix(stories, v);
      if Carries(stories[..n], v) { NotTwice(stories, v); }
      assert NotIn([], ids) == [];
      hide ReportedFor, NotIn, UnknownDeps, Carries;
    }
  }

  lemma {:induction false} UnknownOrder(stories: seq<StoryRow>, ids: seq<Id>)
    ensures InPrdOrder(stories, Reporters(AllUnknown(stories, ids)))
    ensures AllCarried(stories, Reporters(AllUnknown(stories, ids)))
    decreases |stories|
  {
    if stories != [] {
      var n := |stories| - 1;
      var last := stories[n];
      var before, own := AllUnknown(stories[..n], ids), UnknownDeps(last.id, last.dependsOn, ids);
      UnknownOrder(stories[..n], ids);
      ReportedForOne(last.id, last.dependsOn, ids, last.id);
      assert Reporters(before + own) == Reporters(before) + Reporters(own);
      hide InPrdOrder, AllCarried, UnknownDeps;
      OneMoreInOrder(stories, Reporters(before), Reporters(own));
    }
  }

  lemma AllListed(stories: seq<StoryRow>, depsOf: DepMap, cut: set<Edge>)
    requires DistinctIds(stories) && depsOf == DepsOf(stories, Ids(stories))
    ensures EdgesListed(stories, DrawnEdges(stories, depsOf, cut))
    ensures UnknownListed(stories, AllUnknown(stories, Ids(stories)))
  {
    DrawnOrder(stories, depsOf, cut);
    UnknownOrder(stories, Ids(stories));
    var edges := DrawnEdges(stories, depsOf, cut);
    PairsAreKept(stories, cut);
    hide InPrdOrder, AllCarried;
    forall v ensures DrawnInto(edges, v) == DrawnAmong(DependsOn(stories, v), v, Pairs(edges)) {
      DrawnOf(stories, depsOf, cut, v);
      UnknownOf(stories, Ids(stories), v);
      DepsOfKnows(stories, Ids(stories), v);
      ListedOf(stories, depsOf, cut, v, Pairs(edges));
    }
    forall v ensures ReportedFor(AllUnknown(stories, Ids(stories)), v) == NotIn(DependsOn(stories, v), Ids(stories)) {
      UnknownOf(stories, Ids(stories), v);
    }
  }

  lemma ListedOf(stories: seq<StoryRow>, depsOf: DepMap, cut: set<Edge>, v: Id, drawn: set<Edge>)
    requires depsOf == DepsOf(stories, Ids(stories)) && drawn == Declared(depsOf) - cut
    requires !Carries(stories, v) ==> DependsOn(stories, v) == []
    ensures DrawnAmong(DependsOn(stories, v), v, drawn) == if Carries(stories, v) then LiveDeps(depsOf, cut, v) else []
  {
    DepsOfKnows(stories, Ids(stories), v);
    forall d | d in DependsOn(stories, v) ensures Edge(v, d) in drawn <==> d in Ids(stories) && Edge(v, d) !in cut {
      DeclaredEdge(depsOf, v, d);
    }
    if Carries(stories, v) { DrawnIsKept(DependsOn(stories, v), Ids(stories), v, cut, drawn); }
  }

  /** The known ones of declared dependencies stand in declared order. */
  lemma {:induction false} KnownInOrder(x: seq<Id>, y: seq<Id>, ids: seq<Id>)
    ensures Known(x + y, ids) == Known(x, ids) + Known(y, ids)
    decreases |x|
  {
    if x == [] {
      assert x + y == y;
    } else {
      var all, rest := x + y, x[1..];
      assert all[1..] == rest + y && all[0] == x[0];
      KnownInOrder(rest, y, ids);
      KnownStep(all, ids);
      KnownStep(x, ids);
      hide Known;
      assert [x[0]] + (Known(rest, ids) + Known(y, ids)) == [x[0]] + Known(rest, ids) + Known(y, ids);
    }
  }

  lemma KnownStep(deps: seq<Id>, ids: seq<Id>)
    requires deps != []
    ensures Known(deps, ids) == (if deps[0] in ids then [deps[0]] else []) + Known(deps[1..], ids)
  { }

  lemma OneMoreInOrder(stories: seq<StoryRow>, before: seq<Id>, own: seq<Id>)
    requires stories != [] && InPrdOrder(stories[..|stories|-1], before)
    requires AllCarried(stories[..|stories|-1], before)
    requires forall i :: 0 <= i < |own| ==> own[i] == stories[|stories|-1].id
    ensures InPrdOrder(stories, before + own) && AllCarried(stories, before + own)
  {
    var n := |stories| - 1;
    forall i | 0 <= i < |before + own| ensures Carries(stories, (before + own)[i]) {
      CarriesPrefix(stories, (before + own)[i]);
      if i < |before| { assert Carries(stories[..n], before[i]); }
    }
    forall i, j | 0 <= i < j < |before + own| ensures NoLater(stories, (before + own)[i], (before + own)[j]) {
      if j < |before| {
        assert NoLater(stories[..n], before[i], before[j]);
        var a, b :| 0 <= a <= b < n && stories[..n][a].id == before[i] && stories[..n][b].id == before[j];
        assert stories[a].id == before[i] && stories[b].id == before[j];
      } else if i < |before| {
        assert Carries(stories[..n], before[i]);
        var a :| 0 <= a < n && stories[..n][a].id == before[i];
        assert stories[a].id == before[i] && stories[n].id == own[j-|before|];
      } else {
        assert stories[n].id == own[i-|before|] && stories[n].id == own[j-|before|];
      }
    }
  }

  method LayoutStoryGraph(rows: seq<StoryRow>) returns (layout: Layout)
    ensures Partitions(layout.columns, FirstById(rows))
    ensures LongestPathColumns(layout.columns, Pairs(layout.edges))
    ensures InBarycentreOrder(FirstById(rows), KnownDeps(rows), Declared(KnownDeps(rows)) - Pairs(layout.edges), layout.columns)
    ensures RiseByMean(FirstById(rows), KnownDeps(rows), Declared(KnownDeps(rows)) - Pairs(layout.edges), layout.columns)
    // Every declared occurrence is drawn once or reported once.
    ensures forall v, d :: Mentions(layout.edges, layout.unresolved, v, d) == multiset(DependsOn(FirstById(rows), v))[d]
    ensures ReportsTruly(layout, FirstById(rows))
    // Of the known dependencies exactly those back to a story on the first path are not drawn.
    ensures forall e :: e in Declared(KnownDeps(rows)) ==>
      (e in Pairs(layout.edges) <==> !OnFirstPath(KnownDeps(rows), Ids(FirstById(rows)), e.story, e.dep))
    // Edges are drawn story by story, and for a story in the order it declares them.
    ensures EdgesListed(FirstById(rows), layout.edges)
    // What was not known is reported first, in the same order, then the cycles in the order the search closes them.
    ensures exists unknown ::
      && UnknownListed(FirstById(rows), unknown)
      && layout.unresolved == unknown + ExploreAll(KnownDeps(rows), Search(map[], map[], {}, []), Ids(FirstById(rows))).cycles
    // A cycle is reported exactly when the known dependencies have one.
    ensures (exists u :: u in layout.unresolved && u.reason == Cycle) <==> !Acyclic(Declared(KnownDeps(rows)))
  {
    var stories := FirstById(rows);
    var ids := Ids(stories);
    var depsOf := DepsOf(stories, ids);
    assert depsOf == KnownDeps(rows);
    hide *;
    var unknown := AllUnknown(stories, ids);
    var columnOf, cut, cycles := AssignColumns(ids, depsOf);
    var edges := DrawnEdges(stories, depsOf, cut);
    StoriesHaveColumns(stories, columnOf, depsOf);
    var columns := PlaceLayers(stories, columnOf, depsOf, cut);
    layout := Layout(columns, edges, unknown + cycles);

    PairsAreKept(stories, cut);
    CutIsWhatIsNotDrawn(depsOf, cut, Pairs(edges));
    CutsGoBack(stories, depsOf, columnOf, cut, cycles);
    AllListed(stories, depsOf, cut);
    ColumnsHold(stories, columnOf, depsOf, cut, columns);
    ColumnsRise(stories, columnOf, depsOf, cut, columns);
    AllConserved(stories, depsOf, cut, cycles);
    ReportsHold(stories, columnOf, depsOf, cut, cycles, layout);
  }

  lemma AllConserved(stories: seq<StoryRow>, depsOf: DepMap, cut: set<Edge>, cycles: seq<UnresolvedDep>)
    requires DistinctIds(stories) && depsOf == DepsOf(stories, Ids(stories))
    requires forall k :: 0 <= k < |cycles| ==> cycles[k].reason == Cycle
    requires forall v, d ::
      multiset(cycles)[UnresolvedDep(v, d, Cycle)] == (if Edge(v, d) in cut then multiset(Deps(depsOf, v))[d] else 0)
    ensures forall v, d ::
      Mentions(DrawnEdges(stories, depsOf, cut), AllUnknown(stories, Ids(stories)) + cycles, v, d)
        == multiset(DependsOn(stories, v))[d]
  {
    hide Mentions;
    forall v, d
      ensures Mentions(DrawnEdges(stories, depsOf, cut), AllUnknown(stories, Ids(stories)) + cycles, v, d)
        == multiset(DependsOn(stories, v))[d]
    {
      Conserved(stories, cut, cycles, v, d);
    }
  }

  lemma CutIsWhatIsNotDrawn(g: DepMap, cut: set<Edge>, drawn: set<Edge>)
    requires drawn == Declared(g) - cut
    requires forall e :: e in cut ==> e in Declared(g)
    ensures Declared(g) - drawn == cut
  {
  }

  lemma CutsGoBack(stories: seq<StoryRow>, depsOf: DepMap, columnOf: map<Id, nat>, cut: set<Edge>, cycles: seq<UnresolvedDep>)
    requires depsOf == DepsOf(stories, Ids(stories))
    requires exists state :: Search(state, columnOf, cut, cycles) == ExploreAll(depsOf, Search(map[], map[], {}, []), Ids(stories))
    ensures forall e :: e in Declared(depsOf) ==>
      (e !in Declared(depsOf) - cut <==> OnFirstPath(depsOf, Ids(stories), e.story, e.dep))
    ensures cycles == ExploreAll(depsOf, Search(map[], map[], {}, []), Ids(stories)).cycles
  {
    forall e | e in Declared(depsOf) ensures e in cut <==> OnFirstPath(depsOf, Ids(stories), e.story, e.dep) {
      CutExactlyWhen(depsOf, Ids(stories), e.story, e.dep);
      DepsOfKnows(stories, Ids(stories), e.story);
      var i :| 0 <= i < |stories| && stories[i].id == e.story;
      assert Ids(stories)[i] == e.story;
    }
    hide OnFirstPath, ExploreAll;
  }

  /** The stories, layer by layer, each layer put in barycentre order of the ones before it. */
  method PlaceLayers(stories: seq<StoryRow>, columnOf: map<Id, nat>, depsOf: DepMap, cut: set<Edge>)
    returns (columns: seq<seq<StoryRow>>)
    requires DistinctIds(stories) && forall s :: s in stories ==> s.id in columnOf
    ensures |columns| == Width(stories, columnOf)
    ensures multiset(Flatten(columns)) == multiset(stories)
    ensures forall c :: 0 <= c < |columns| ==> multiset(columns[c]) == multiset(Layer(stories, columnOf, c))
    ensures InBarycentreOrder(stories, depsOf, cut, columns)
  {
    hide *;
    var width := Width(stories, columnOf);
    columns := [];
    StartOrder(stories, columnOf, depsOf, cut);
    NothingBelowZero(stories, columnOf);
    for column := 0 to width
      invariant |columns| == column
      invariant multiset(Flatten(columns)) == multiset(Below(stories, columnOf, column))
      invariant forall c :: 0 <= c < column ==> multiset(columns[c]) == multiset(Layer(stories, columnOf, c))
      invariant InBarycentreOrder(stories, depsOf, cut, columns)
    {
      var layer := Layer(stories, columnOf, column);
      OneMoreLayer(stories, columnOf, column);
      if column == 0 {
        FirstLayerSorted(stories, columnOf, depsOf, cut, 0);
        PlacedOrder(stories, depsOf, cut, columns, layer);
        columns := [layer];
      } else {
        var order := Order(stories, columns, depsOf, cut);
        order.SortSorted(layer);
        PlacedOrder(stories, depsOf, cut, columns, order.Sort(layer));
        columns := columns + [order.Sort(layer)];
      }
    }
    AllBelow(stories, columnOf, width);
  }

  lemma StartOrder(stories: seq<StoryRow>, columnOf: map<Id, nat>, depsOf: DepMap, cut: set<Edge>)
    ensures InBarycentreOrder(stories, depsOf, cut, [])
    ensures multiset(Flatten<StoryRow>([])) == multiset([])
  {
  }

  lemma PlacedOrder(stories: seq<StoryRow>, depsOf: DepMap, cut: set<Edge>, placed: seq<seq<StoryRow>>, column: seq<StoryRow>)
    requires InBarycentreOrder(stories, depsOf, cut, placed)
    requires Order(stories, placed, depsOf, cut).Sorted(column)
    ensures InBarycentreOrder(stories, depsOf, cut, placed + [column])
    ensures multiset(Flatten(placed + [column])) == multiset(Flatten(placed)) + multiset(column)
    ensures placed == [] ==> placed + [column] == [column]
  {
    var columns := placed + [column];
    forall c | 0 <= c < |columns| ensures Order(stories, columns[..c], depsOf, cut).Sorted(columns[c]) {
      assert columns[..c] == placed[..c];
      assert placed[..|placed|] == placed;
    }
    assert columns[..|columns|-1] == placed;
  }

  lemma {:induction false} NothingPlaced(deps: seq<Id>)
    ensures SumPositions([], deps) == 0
    decreases |deps|
  {
    if deps != [] { NothingPlaced(deps[1..]); }
  }

  /** With nothing placed yet the PRD order alone decides. */
  lemma FirstBefore(stories: seq<StoryRow>, depsOf: DepMap, cut: set<Edge>, a: StoryRow, b: StoryRow)
    requires PrdIndex(stories, a) <= PrdIndex(stories, b)
    ensures Order(stories, [], depsOf, cut).Before(a, b)
  {
    NothingPlaced(LiveDeps(depsOf, cut, a.id));
    NothingPlaced(LiveDeps(depsOf, cut, b.id));
  }

  lemma {:induction false} FirstLayerSorted(stories: seq<StoryRow>, columnOf: map<Id, nat>, depsOf: DepMap, cut: set<Edge>, k: nat)
    requires DistinctIds(stories) && k <= |stories|
    ensures Order(stories, [], depsOf, cut).Sorted(Layer(stories[k..], columnOf, 0))
    ensures forall s :: s in Layer(stories[k..], columnOf, 0) ==> k <= PrdIndex(stories, s)
    ensures stories[0..] == stories
    decreases |stories| - k
  {
    if k < |stories| {
      FirstLayerSorted(stories, columnOf, depsOf, cut, k + 1);
      LayerFront(stories, columnOf, k);
      var rest, s := Layer(stories[k+1..], columnOf, 0), stories[k];
      assert Ids(stories)[k] == s.id;
      assert PrdIndex(stories, s) == k;
      hide *;
      forall j | 0 <= j < |rest| ensures Order(stories, [], depsOf, cut).Before(s, rest[j]) {
        assert rest[j] in rest;
        FirstBefore(stories, depsOf, cut, s, rest[j]);
      }
      SortedFront(Order(stories, [], depsOf, cut), s, rest);
    }
  }

  lemma LayerFront(stories: seq<StoryRow>, columnOf: map<Id, nat>, k: nat)
    requires k < |stories|
    ensures var rest := Layer(stories[k+1..], columnOf, 0);
      Layer(stories[k..], columnOf, 0) == [stories[k]] + rest || Layer(stories[k..], columnOf, 0) == rest
  {
    assert stories[k..][0] == stories[k] && stories[k..][1..] == stories[k+1..];
  }

  lemma SortedFront(order: Order, s: StoryRow, rest: seq<StoryRow>)
    requires order.Sorted(rest) && forall j :: 0 <= j < |rest| ==> order.Before(s, rest[j])
    ensures order.Sorted([s] + rest)
  {
    hide Order.Before;
  }

  lemma ColumnsHold(stories: seq<StoryRow>, columnOf: map<Id, nat>, depsOf: DepMap, cut: set<Edge>, columns: seq<seq<StoryRow>>)
    requires depsOf == DepsOf(stories, Ids(stories)) && Layered(depsOf, cut, columnOf)
    requires forall v :: v in columnOf ==> LongestFrom(Declared(depsOf) - cut, v, columnOf[v])
    requires forall s :: s in stories ==> s.id in columnOf
    requires |columns| == Width(stories, columnOf)
    requires forall c :: 0 <= c < |columns| ==> multiset(columns[c]) == multiset(Layer(stories, columnOf, c))
    requires multiset(Flatten(columns)) == multiset(stories)
    ensures Partitions(columns, stories)
    ensures LongestPathColumns(columns, Declared(depsOf) - cut)
  {
    hide LongestFrom, Layered;
    forall c | 0 <= c < |columns| ensures |columns[c]| > 0 {
      var s := Widest(stories, columnOf);
      NoEmptyLayer(stories, cut, columnOf, s, c);
      assert |multiset(columns[c])| == |multiset(Layer(stories, columnOf, c))|;
    }
    forall c, k | 0 <= c < |columns| && 0 <= k < |columns[c]|
      ensures LongestFrom(Declared(depsOf) - cut, columns[c][k].id, c)
    {
      assert columns[c][k] in multiset(columns[c]);
      assert columns[c][k] in Layer(stories, columnOf, c);
    }
  }

  function Width(stories: seq<StoryRow>, columnOf: map<Id, nat>): (w: nat)
    ensures stories == [] <==> w == 0
    ensures forall s :: s in stories && s.id in columnOf ==> columnOf[s.id] < w
  {
    if stories == [] then 0 else
      var columns := ColumnsOf(Ids(stories), columnOf);
      assert forall i :: 0 <= i < |stories| && stories[i].id in columnOf ==> columns[i] == columnOf[stories[i].id];
      1 + MaxOf(columns)
  }

  /** Some story stands in the last column. */
  lemma Widest(stories: seq<StoryRow>, columnOf: map<Id, nat>) returns (s: StoryRow)
    requires |stories| > 0 && forall t :: t in stories ==> t.id in columnOf
    ensures s in stories && columnOf[s.id] + 1 == Width(stories, columnOf)
  {
    var columns := ColumnsOf(Ids(stories), columnOf);
    var i :| 0 <= i < |columns| && columns[i] == MaxOf(columns);
    s := stories[i];
  }

  lemma CutIsReported(depsOf: DepMap, cut: set<Edge>, cycles: seq<UnresolvedDep>, e: Edge)
    requires e in cut && e.dep in Deps(depsOf, e.story)
    requires forall v, d ::
      multiset(cycles)[UnresolvedDep(v, d, Cycle)] == (if Edge(v, d) in cut then multiset(Deps(depsOf, v))[d] else 0)
    ensures UnresolvedDep(e.story, e.dep, Cycle) in cycles
  {
    assert e == Edge(e.story, e.dep);
    assert multiset(cycles)[UnresolvedDep(e.story, e.dep, Cycle)] > 0;
  }

  lemma ReportsHold(stories: seq<StoryRow>, columnOf: map<Id, nat>, depsOf: DepMap, cut: set<Edge>, cycles: seq<UnresolvedDep>,
                    layout: Layout)
    requires DistinctIds(stories) && depsOf == DepsOf(stories, Ids(stories)) && Layered(depsOf, cut, columnOf)
    requires forall s :: s in stories ==> s.id in columnOf
    requires forall e :: e in cut ==> e in Declared(depsOf) && Reaches(Declared(depsOf) - cut, e.dep, e.story)
    requires forall v, d ::
      multiset(cycles)[UnresolvedDep(v, d, Cycle)] == (if Edge(v, d) in cut then multiset(Deps(depsOf, v))[d] else 0)
    requires forall k :: 0 <= k < |cycles| ==> cycles[k].reason == Cycle
    requires layout.unresolved == AllUnknown(stories, Ids(stories)) + cycles
    requires Pairs(layout.edges) == Declared(depsOf) - cut
    ensures ReportsTruly(layout, stories)
    ensures (exists u :: u in layout.unresolved && u.reason == Cycle) <==> !Acyclic(Declared(depsOf))
  {
    hide Reaches, Acyclic, Layered, Chain, Declared, Pairs, DistinctIds, Deps, DepsOf, Ids, AllUnknown;
    UnknownIsUnknown(stories);
    CyclesAreCut(stories, depsOf, cut, cycles);
    CycleReported(stories, columnOf, depsOf, cut, cycles);
    EitherKind(AllUnknown(stories, Ids(stories)), cycles);
  }

  lemma EitherKind(unknown: seq<UnresolvedDep>, cycles: seq<UnresolvedDep>)
    requires (forall u :: u in unknown ==> u.reason == Unknown) && forall u :: u in cycles ==> u.reason == Cycle
    ensures forall u :: u in unknown + cycles && u.reason == Unknown ==> u in unknown
    ensures forall u :: u in unknown + cycles && u.reason == Cycle <==> u in cycles
  {
  }

  lemma UnknownIsUnknown(stories: seq<StoryRow>)
    requires DistinctIds(stories)
    ensures forall u :: u in AllUnknown(stories, Ids(stories)) ==> u.reason == Unknown && u.dep !in Ids(stories)
  {
    var unknown := AllUnknown(stories, Ids(stories));
    forall u | u in unknown ensures u.reason == Unknown && u.dep !in Ids(stories) {
      AllUnknownCount(stories, Ids(stories), u);
      assert multiset(unknown)[u] > 0;
    }
  }

  lemma CyclesAreCut(stories: seq<StoryRow>, depsOf: DepMap, cut: set<Edge>, cycles: seq<UnresolvedDep>)
    requires depsOf == DepsOf(stories, Ids(stories)) && forall k :: 0 <= k < |cycles| ==> cycles[k].reason == Cycle
    requires forall v, d ::
      multiset(cycles)[UnresolvedDep(v, d, Cycle)] == (if Edge(v, d) in cut then multiset(Deps(depsOf, v))[d] else 0)
    ensures forall u :: u in cycles ==> u.reason == Cycle && Edge(u.story, u.dep) in cut && u.dep in Ids(stories)
  {
    hide Declared;
    forall u | u in cycles ensures u.reason == Cycle && Edge(u.story, u.dep) in cut && u.dep in Ids(stories) {
      assert u == UnresolvedDep(u.story, u.dep, Cycle);
      assert multiset(cycles)[u] > 0;
      DeclaredEdge(depsOf, u.story, u.dep);
      DepsOfKnows(stories, Ids(stories), u.story);
    }
  }

  /** A cycle is reported exactly when the declared dependencies have one. */
  lemma CycleReported(stories: seq<StoryRow>, columnOf: map<Id, nat>, depsOf: DepMap, cut: set<Edge>, cycles: seq<UnresolvedDep>)
    requires DistinctIds(stories) && depsOf == DepsOf(stories, Ids(stories)) && Layered(depsOf, cut, columnOf)
    requires forall s :: s in stories ==> s.id in columnOf
    requires forall e :: e in cut ==> e in Declared(depsOf) && Reaches(Declared(depsOf) - cut, e.dep, e.story)
    requires forall v, d ::
      multiset(cycles)[UnresolvedDep(v, d, Cycle)] == (if Edge(v, d) in cut then multiset(Deps(depsOf, v))[d] else 0)
    requires forall u :: u in cycles ==> Edge(u.story, u.dep) in cut
    ensures (exists u :: u in cycles) <==> !Acyclic(Declared(depsOf))
  {
    hide Reaches, Acyclic, Layered, Chain, Declared;
    if u :| u in cycles {
      CutIsOnCycle(depsOf, cut, Edge(u.story, u.dep));
    } else {
      forall e ensures e !in cut {
        if e in cut {
          DeclaredEdge(depsOf, e.story, e.dep);
          CutIsReported(depsOf, cut, cycles, e);
        }
      }
      assert Declared(depsOf) - cut == Declared(depsOf);
      forall v | v in depsOf ensures v in columnOf {
        DepsOfKnows(stories, Ids(stories), v);
        var i :| 0 <= i < |stories| && stories[i].id == v;
        assert stories[i] in stories;
      }
      LayeredIsAcyclic(depsOf, cut, columnOf);
    }
  }

  lemma StoriesHaveColumns(stories: seq<StoryRow>, columnOf: map<Id, nat>, depsOf: DepMap)
    requires forall v :: v in columnOf <==> exists r :: r in Ids(stories) && Reaches(Declared(depsOf), r, v)
    ensures forall s :: s in stories ==> s.id in columnOf
  {
    forall s | s in stories ensures s.id in columnOf {
      var i :| 0 <= i < |stories| && stories[i] == s;
      assert Ids(stories)[i] == s.id;
      ReachesSelf(Declared(depsOf), s.id);
    }
  }
}

/** Lineage trees of a content snapshot (get_snapshot_lineage of application/service.py). */
module Lineage {
  import opened Options
  import opened Ordering

  type Id = string

  /** Each stored id with the ids it descends from, without repetitions. */
  type Graph = map<Id, seq<Id>>

  datatype Tree = Node(id: Id, parents: seq<Tree>)

  // ----- What a lineage is -----

  /** The sequence follows edges from its first id on; only its last id may be unknown. */
  ghost predicate IsWalk(graph: Graph, walk: seq<Id>) {
    && walk != []
    && forall k :: 0 <= k < |walk| - 1 ==> walk[k] in graph && walk[k + 1] in graph[walk[k]]
  }

  ghost predicate IsWalkFrom(graph: Graph, walk: seq<Id>, from: Id) {
    IsWalk(graph, walk) && walk[0] == from
  }

  ghost predicate IsWalkBetween(graph: Graph, walk: seq<Id>, from: Id, to: Id) {
    IsWalkFrom(graph, walk, from) && walk[|walk| - 1] == to
  }

  ghost predicate Reaches(graph: Graph, from: Id, to: Id) { exists walk :: IsWalkBetween(graph, walk, from, to) }

  ghost predicate OnCycle(graph: Graph, id: Id) { exists walk :: |walk| >= 2 && IsWalkBetween(graph, walk, id, id) }

  /** Everything reachable is stored, and none of it descends from itself. */
  ghost predicate IsComplete(graph: Graph, id: Id) {
    forall ancestor :: Reaches(graph, id, ancestor) ==> ancestor in graph && !OnCycle(graph, ancestor)
  }

  // ----- The tree that both recursions build -----

  ghost function Unvisited(graph: Graph, path: seq<Id>): nat { |graph.Keys - (set x | x in path)| }

  lemma {:induction false} VisitingDecreases(graph: Graph, id: Id, path: seq<Id>)
    requires id in graph && id !in path
    ensures Unvisited(graph, path + [id]) < Unvisited(graph, path)
  {
    var before, after := graph.Keys - (set x | x in path), graph.Keys - (set x | x in path + [id]);
    assert after == before - {id};
  }

  function Build(graph: Graph, id: Id, path: seq<Id>): Option<Tree>
    decreases Unvisited(graph, path), 1, 0
  {
    if id in path || id !in graph then None
    else
      VisitingDecreases(graph, id, path);
      match BuildAll(graph, graph[id], path + [id])
      case None => None
      case Some(parents) => Some(Node(id, parents))
  }

  function BuildAll(graph: Graph, ids: seq<Id>, path: seq<Id>): (r: Option<seq<Tree>>)
    ensures r.Some? ==> |r.value| == |ids|
    decreases Unvisited(graph, path), 2, |ids|
  {
    if ids == [] then Some([])
    else
      var first, rest := Build(graph, ids[0], path), BuildAll(graph, ids[1..], path);
      if first.Some? && rest.Some? then Some([first.value] + rest.value) else None
  }

  lemma {:induction false} BuildAllEach(graph: Graph, ids: seq<Id>, path: seq<Id>)
    ensures BuildAll(graph, ids, path).Some? <==> forall k :: 0 <= k < |ids| ==> Build(graph, ids[k], path).Some?
    ensures BuildAll(graph, ids, path).Some? ==>
      forall k :: 0 <= k < |ids| ==> Build(graph, ids[k], path) == Some(BuildAll(graph, ids, path).value[k])
    decreases |ids|
  {
    if ids != [] {
      var rest := ids[1..];
      BuildAllEach(graph, rest, path);
      assert forall k :: 0 < k < |ids| ==> ids[k] == rest[k - 1];
      if forall k :: 0 <= k < |ids| ==> Build(graph, ids[k], path).Some? {
        assert forall k :: 0 <= k < |rest| ==> rest[k] == ids[k + 1];
      }
    }
  }

  // ----- A tree exists exactly for complete lineages -----

  /** The walk stays in the graph and visits nothing twice, nor anything of the path. */
  ghost predicate IsFresh(graph: Graph, path: seq<Id>, walk: seq<Id>)
    requires walk != []
  {
    walk[|walk| - 1] in graph && walk[|walk| - 1] !in path + walk[..|walk| - 1]
  }

  lemma {:induction false} WalkTail(graph: Graph, walk: seq<Id>)
    requires IsWalk(graph, walk) && |walk| >= 2
    ensures walk[0] in graph && walk[1] in graph[walk[0]] && IsWalkFrom(graph, walk[1..], walk[1])
  {
    var rest := walk[1..];
    forall k | 0 <= k < |rest| - 1 ensures rest[k] in graph && rest[k + 1] in graph[rest[k]] {
      assert rest[k] == walk[k + 1] && rest[k + 1] == walk[k + 2];
      assert walk[k + 1] in graph;
    }
  }

  lemma {:induction false} TreeMeansFresh(graph: Graph, id: Id, path: seq<Id>, walk: seq<Id>)
    requires Build(graph, id, path).Some? && IsWalkFrom(graph, walk, id)
    ensures IsFresh(graph, path, walk)
    decreases |walk|
  {
    if |walk| >= 2 {
      var rest, child := walk[1..], walk[1];
      WalkTail(graph, walk);
      BuildAllEach(graph, graph[id], path + [id]);
      var k :| 0 <= k < |graph[id]| && graph[id][k] == child;
      assert Build(graph, graph[id][k], path + [id]).Some?;
      TreeMeansFresh(graph, child, path + [id], rest);
      assert path + [id] + rest[..|rest| - 1] == path + walk[..|walk| - 1];
    }
  }

  lemma {:induction false} NoTreeMeansStale(graph: Graph, id: Id, path: seq<Id>) returns (walk: seq<Id>)
    requires Build(graph, id, path) == None
    ensures IsWalkFrom(graph, walk, id) && !IsFresh(graph, path, walk)
    decreases Unvisited(graph, path)
  {
    if id in path || id !in graph {
      walk := [id];
    } else {
      VisitingDecreases(graph, id, path);
      BuildAllEach(graph, graph[id], path + [id]);
      var k :| 0 <= k < |graph[id]| && Build(graph, graph[id][k], path + [id]) == None;
      var rest := NoTreeMeansStale(graph, graph[id][k], path + [id]);
      walk := [id] + rest;
      WalkExtended(graph, id, rest);
      assert path + [id] + rest[..|rest| - 1] == path + walk[..|walk| - 1];
    }
  }

  lemma {:induction false} WalkExtended(graph: Graph, id: Id, rest: seq<Id>)
    requires IsWalk(graph, rest) && id in graph && rest[0] in graph[id]
    ensures IsWalkFrom(graph, [id] + rest, id)
  {
    var walk := [id] + rest;
    forall k | 0 <= k < |walk| - 1 ensures walk[k] in graph && walk[k + 1] in graph[walk[k]] {
      assert walk[k + 1] == rest[k];
      if k > 0 { assert walk[k] == rest[k - 1] && rest[k] in graph[rest[k - 1]]; }
    }
  }

  lemma {:induction false} WalkPart(graph: Graph, walk: seq<Id>, i: nat, j: nat)
    requires IsWalk(graph, walk) && i < j <= |walk|
    ensures IsWalkBetween(graph, walk[i..j], walk[i], walk[j - 1])
  {
    var part := walk[i..j];
    forall k | 0 <= k < |part| - 1 ensures part[k] in graph && part[k + 1] in graph[part[k]] {
      assert part[k] == walk[i + k] && part[k + 1] == walk[i + k + 1];
      assert walk[i + k] in graph;
    }
  }

  lemma {:induction false} WalksJoin(graph: Graph, a: seq<Id>, b: seq<Id>)
    requires IsWalk(graph, a) && IsWalk(graph, b) && a[|a| - 1] == b[0]
    ensures IsWalkBetween(graph, a + b[1..], a[0], b[|b| - 1])
  {
    var walk := a + b[1..];
    forall k | 0 <= k < |walk| - 1 ensures walk[k] in graph && walk[k + 1] in graph[walk[k]] {
      if k + 1 < |a| {
        assert walk[k] == a[k] && walk[k + 1] == a[k + 1];
      } else {
        assert walk[k] == b[k + 1 - |a|] && walk[k + 1] == b[k + 2 - |a|];
        assert b[k + 1 - |a|] in graph;
      }
    }
  }

  /** The recursion returns a tree exactly when everything reachable is stored and acyclic. */
  lemma {:induction false} TreeExactlyWhenComplete(graph: Graph, id: Id)
    ensures Build(graph, id, []).Some? <==> IsComplete(graph, id)
  {
    hide IsWalk, IsFresh;
    if Build(graph, id, []).Some? {
      forall ancestor | Reaches(graph, id, ancestor) ensures ancestor in graph && !OnCycle(graph, ancestor) {
        TreeMeansComplete(graph, id, ancestor);
      }
    } else {
      var walk := NoTreeMeansStale(graph, id, []);
      StaleMeansIncomplete(graph, id, walk);
    }
  }

  lemma {:induction false} TreeMeansComplete(graph: Graph, id: Id, ancestor: Id)
    requires Build(graph, id, []).Some? && Reaches(graph, id, ancestor)
    ensures ancestor in graph && !OnCycle(graph, ancestor)
  {
    var walk :| IsWalkBetween(graph, walk, id, ancestor);
    TreeMeansFresh(graph, id, [], walk);
    if OnCycle(graph, ancestor) {
      var cycle :| |cycle| >= 2 && IsWalkBetween(graph, cycle, ancestor, ancestor);
      WalksJoin(graph, walk, cycle);
      var long := walk + cycle[1..];
      assert ([] + long[..|long| - 1])[|walk| - 1] == ancestor;
      TreeMeansFresh(graph, id, [], long);
      assert false;
    }
  }

  lemma {:induction false} StaleMeansIncomplete(graph: Graph, id: Id, walk: seq<Id>)
    requires IsWalkFrom(graph, walk, id) && !IsFresh(graph, [], walk)
    ensures !IsComplete(graph, id)
  {
    var last := walk[|walk| - 1];
    assert IsWalkBetween(graph, walk, id, last) && Reaches(graph, id, last);
    if last in graph {
      var i :| 0 <= i < |walk| - 1 && walk[i] == last;
      WalkPart(graph, walk, i, |walk|);
      assert OnCycle(graph, last);
    }
  }

  // ----- The nodes of the tree -----

  ghost function Nodes(tree: Tree): set<Id> { {tree.id} + set k, x | 0 <= k < |tree.parents| && x in Nodes(tree.parents[k]) :: x }

  lemma {:induction false} TreeReaches(graph: Graph, id: Id, path: seq<Id>, node: Id)
    requires Build(graph, id, path).Some? && node in Nodes(Build(graph, id, path).value)
    ensures Reaches(graph, id, node)
    decreases Build(graph, id, path).value
  {
    var tree := Build(graph, id, path).value;
    if node == id {
      assert IsWalkBetween(graph, [id], id, id);
    } else {
      var k :| 0 <= k < |tree.parents| && node in Nodes(tree.parents[k]);
      BuildAllEach(graph, graph[id], path + [id]);
      assert Build(graph, graph[id][k], path + [id]) == Some(tree.parents[k]);
      TreeReaches(graph, graph[id][k], path + [id], node);
      var rest :| IsWalkBetween(graph, rest, graph[id][k], node);
      WalkExtended(graph, id, rest);
      assert IsWalkBetween(graph, [id] + rest, id, node);
    }
  }

  lemma {:induction false} WalkStaysInTree(graph: Graph, id: Id, path: seq<Id>, walk: seq<Id>)
    requires Build(graph, id, path).Some? && IsWalkFrom(graph, walk, id)
    ensures walk[|walk| - 1] in Nodes(Build(graph, id, path).value)
    decreases |walk|
  {
    if |walk| >= 2 {
      var rest, child := walk[1..], walk[1];
      WalkTail(graph, walk);
      BuildAllEach(graph, graph[id], path + [id]);
      var k :| 0 <= k < |graph[id]| && graph[id][k] == child;
      var parents := Build(graph, id, path).value.parents;
      assert Build(graph, graph[id][k], path + [id]) == Some(parents[k]);
      WalkStaysInTree(graph, child, path + [id], rest);
      assert walk[|walk| - 1] in Nodes(parents[k]);
    }
  }

  /** The nodes of the tree are exactly the reachable ids. */
  lemma {:induction false} NodesAreReachable(graph: Graph, id: Id, node: Id)
    requires Build(graph, id, []).Some?
    ensures node in Nodes(Build(graph, id, []).value) <==> Reaches(graph, id, node)
  {
    hide IsWalk;
    if node in Nodes(Build(graph, id, []).value) { TreeReaches(graph, id, [], node); }
    if Reaches(graph, id, node) {
      var walk :| IsWalkBetween(graph, walk, id, node);
      WalkStaysInTree(graph, id, [], walk);
    }
  }

  // ----- The two recursions of the service -----

  datatype Problem =
    | Unavailable
    | ArtifactCycle(path: seq<Id>)
    | ArtifactMissing(child: Id, id: Id)
    | SnapshotCycle(path: seq<Id>)
    | SnapshotMissing(child: Id, id: Id)

  datatype Snapshot = Snapshot(slots: seq<(string, Id)>, parent: Option<Id>, supersedes: Option<Id>)

  datatype Report = Report(artifacts: seq<(string, Tree)>, snapshots: Option<Tree>, complete: bool, problems: set<Problem>)

  function WithoutRepeats(ids: seq<Id>): (r: seq<Id>)
    ensures forall x :: x in r <==> x in ids
  {
    if ids == [] then []
    else
      assert ids == ids[..|ids| - 1] + [ids[|ids| - 1]];
      var front := WithoutRepeats(ids[..|ids| - 1]);
      if ids[|ids| - 1] in front then front else front + [ids[|ids| - 1]]
  }

  /** `sorted({...})` */
  function ArtifactParents(ids: seq<Id>): seq<Id> { SortBy(WithoutRepeats(ids), StringLe) }

  function Given(id: Option<Id>): seq<Id> { if id.Some? && id.value != "" then [id.value] else [] }

  /** The logical parent, then the superseded snapshot unless it is the same one. */
  function SnapshotParents(snapshot: Snapshot): seq<Id> {
    WithoutRepeats(Given(snapshot.parent) + Given(snapshot.supersedes))
  }

  function ArtifactGraph(artifacts: Option<map<Id, seq<Id>>>): Graph {
    if artifacts.None? then map[] else map id | id in artifacts.value :: ArtifactParents(artifacts.value[id])
  }

  function SnapshotGraph(snapshots: map<Id, Snapshot>): Graph {
    map id | id in snapshots :: SnapshotParents(snapshots[id])
  }

  // ----- The recorded fields behind the graphs -----

  /** The recorded parents, each once and strictly ascending. */
  lemma {:induction false} ParentsOfArtifact(ids: seq<Id>)
    ensures var parents := ArtifactParents(ids);
      && (forall p :: p in parents <==> p in ids)
      && (forall i, j :: 0 <= i < j < |parents| ==> StringLe(parents[i], parents[j]) && parents[i] != parents[j])
  {
    hide StringLe, SortBy;
    var given := WithoutRepeats(ids);
    StringLeOrder();
    SortBySorted(given, StringLe);
    MultisetMembers(ArtifactParents(ids), given);
    WithoutRepeatsDiffer(ids);
    SortKeepsDistinct(given, ArtifactParents(ids));
  }

  lemma {:induction false} WithoutRepeatsDiffer(ids: seq<Id>)
    ensures forall i, j :: 0 <= i < j < |WithoutRepeats(ids)| ==> WithoutRepeats(ids)[i] != WithoutRepeats(ids)[j]
  {
    if ids != [] { WithoutRepeatsDiffer(ids[..|ids| - 1]); }
  }

  lemma {:induction false} SortKeepsDistinct(s: seq<Id>, t: seq<Id>)
    requires multiset(s) == multiset(t) && forall i, j :: 0 <= i < j < |s| ==> s[i] != s[j]
    ensures forall i, j :: 0 <= i < j < |t| ==> t[i] != t[j]
  {
    forall i, j | 0 <= i < j < |t| ensures t[i] != t[j] {
      CountTwo(t, i, j);
      CountOnce(s, t[i]);
    }
  }

  lemma {:induction false} CountTwo(t: seq<Id>, i: nat, j: nat)
    requires i < j < |t|
    ensures t[i] == t[j] ==> multiset(t)[t[i]] >= 2
  {
    var x, rest := t[i], t[i + 1..];
    assert t == t[..i] + [x] + rest && rest[j - i - 1] == t[j];
    if t[j] == x {
      assert x in rest;
      assert multiset(t)[x] == multiset(t[..i])[x] + 1 + multiset(rest)[x];
    }
  }

  lemma {:induction false} CountOnce(s: seq<Id>, x: Id)
    requires forall i, j :: 0 <= i < j < |s| ==> s[i] != s[j]
    ensures multiset(s)[x] <= 1
  {
    if s != [] {
      var rest := s[1..];
      CountOnce(rest, x);
      assert s == [s[0]] + rest && forall k :: 0 <= k < |rest| ==> rest[k] == s[k + 1] != s[0];
    }
  }

  /** The field names a snapshot. */
  predicate Names(field: Option<Id>, id: Id) { field == Some(id) && id != "" }

  /** The logical parent comes first, then the superseded snapshot; each is there exactly when its field names it, and once. */
  lemma {:induction false} ParentsOfSnapshot(snapshot: Snapshot)
    ensures var parents := SnapshotParents(snapshot);
      && |parents| <= 2 && (|parents| == 2 ==> parents[0] != parents[1])
      && (forall p :: p in parents <==> Names(snapshot.parent, p) || Names(snapshot.supersedes, p))
      && (forall p :: Names(snapshot.parent, p) ==> parents != [] && parents[0] == p)
  {
    hide WithoutRepeats;
    var first, second := Given(snapshot.parent), Given(snapshot.supersedes);
    RepeatsOfTwo("", "");
    assert first == [] ==> first + second == second;
    assert second == [] ==> first + second == first;
    if first != [] { RepeatsOfTwo(first[0], if second != [] then second[0] else ""); }
    if second != [] { RepeatsOfTwo(second[0], ""); }
    assert first != [] && second != [] ==> first + second == [first[0], second[0]];
  }

  lemma {:induction false} RepeatsOfTwo(a: Id, b: Id)
    ensures WithoutRepeats([a]) == [a] && WithoutRepeats([a, b]) == if a == b then [a] else [a, b]
    ensures WithoutRepeats([]) == []
  {
    assert [a][..0] == [] && [a, b][..1] == [a];
    assert WithoutRepeats([]) == [];
  }

  /** The second id is recorded as a parent of the first. */
  predicate IsArtifactParent(artifacts: Option<map<Id, seq<Id>>>, id: Id, parent: Id) {
    artifacts.Some? && id in artifacts.value && parent in artifacts.value[id]
  }

  predicate IsSnapshotParent(snapshots: map<Id, Snapshot>, id: Id, parent: Id) {
    id in snapshots && (Names(snapshots[id].parent, parent) || Names(snapshots[id].supersedes, parent))
  }

  ghost predicate ArtifactWalk(artifacts: Option<map<Id, seq<Id>>>, walk: seq<Id>) {
    walk != [] && forall k :: 0 <= k < |walk| - 1 ==> IsArtifactParent(artifacts, walk[k], walk[k + 1])
  }

  ghost predicate SnapshotWalk(snapshots: map<Id, Snapshot>, walk: seq<Id>) {
    walk != [] && forall k :: 0 <= k < |walk| - 1 ==> IsSnapshotParent(snapshots, walk[k], walk[k + 1])
  }

  ghost predicate NothingTwice(walk: seq<Id>) { forall j, k :: 0 <= j < k < |walk| ==> walk[j] != walk[k] }

  /** Whatever descent is followed through the recorded parents, it stays among the stored artifacts and never comes back. */
  ghost predicate ArtifactIsTraceable(artifacts: Option<map<Id, seq<Id>>>, id: Id) {
    artifacts.Some? && forall walk :: ArtifactWalk(artifacts, walk) && walk[0] == id ==>
      walk[|walk| - 1] in artifacts.value && NothingTwice(walk)
  }

  /** The same for snapshots, through their parent and superseded fields. */
  ghost predicate SnapshotIsTraceable(snapshots: map<Id, Snapshot>, id: Id) {
    forall walk :: SnapshotWalk(snapshots, walk) && walk[0] == id ==> walk[|walk| - 1] in snapshots && NothingTwice(walk)
  }

  /** The same over a graph. */
  ghost predicate IsTraceable(graph: Graph, id: Id) {
    forall walk :: IsWalkFrom(graph, walk, id) ==> walk[|walk| - 1] in graph && NothingTwice(walk)
  }

  lemma {:induction false} CompleteMeansTraceable(graph: Graph, id: Id)
    ensures IsComplete(graph, id) <==> IsTraceable(graph, id)
  {
    hide NothingTwice;
    if IsComplete(graph, id) {
      forall walk | IsWalkFrom(graph, walk, id) ensures walk[|walk| - 1] in graph && NothingTwice(walk) {
        TraceOfComplete(graph, id, walk);
      }
    }
    if IsTraceable(graph, id) {
      forall ancestor | Reaches(graph, id, ancestor) ensures ancestor in graph && !OnCycle(graph, ancestor) {
        AncestorOfTraceable(graph, id, ancestor);
      }
    }
  }

  lemma {:induction false} TraceOfComplete(graph: Graph, id: Id, walk: seq<Id>)
    requires IsComplete(graph, id) && IsWalkFrom(graph, walk, id)
    ensures walk[|walk| - 1] in graph && NothingTwice(walk)
  {
    assert IsWalkBetween(graph, walk, id, walk[|walk| - 1]) && Reaches(graph, id, walk[|walk| - 1]);
    hide IsWalk;
    forall j, k | 0 <= j < k < |walk| ensures walk[j] != walk[k] {
      WalkPart(graph, walk, 0, j + 1);
      assert walk[0..j + 1][0] == id;
      assert Reaches(graph, id, walk[j]);
      RepeatMeansCycle(graph, walk, j, k);
    }
  }

  lemma {:induction false} RepeatMeansCycle(graph: Graph, walk: seq<Id>, j: nat, k: nat)
    requires IsWalk(graph, walk) && j < k < |walk|
    ensures walk[j] == walk[k] ==> OnCycle(graph, walk[j])
  {
    hide IsWalk;
    WalkPart(graph, walk, j, k + 1);
    assert |walk[j..k + 1]| >= 2;
  }

  lemma {:induction false} CycleMeansRepeat(graph: Graph, walk: seq<Id>, id: Id, ancestor: Id) returns (long: seq<Id>)
    requires IsWalkBetween(graph, walk, id, ancestor) && OnCycle(graph, ancestor)
    ensures IsWalkFrom(graph, long, id) && !NothingTwice(long)
  {
    var cycle :| |cycle| >= 2 && IsWalkBetween(graph, cycle, ancestor, ancestor);
    WalksJoin(graph, walk, cycle);
    long := walk + cycle[1..];
    assert long[|walk| - 1] == ancestor == long[|long| - 1];
  }

  lemma {:induction false} AncestorOfTraceable(graph: Graph, id: Id, ancestor: Id)
    requires IsTraceable(graph, id) && Reaches(graph, id, ancestor)
    ensures ancestor in graph && !OnCycle(graph, ancestor)
  {
    hide IsWalk;
    var walk :| IsWalkBetween(graph, walk, id, ancestor);
    assert IsWalkFrom(graph, walk, id);
    if OnCycle(graph, ancestor) {
      var long := CycleMeansRepeat(graph, walk, id, ancestor);
    }
  }

  lemma {:induction false} SameWalks(graph: Graph, walk: seq<Id>, edge: (Id, Id) -> bool)
    requires forall id, p :: edge(id, p) <==> id in graph && p in graph[id]
    ensures IsWalk(graph, walk) <==> walk != [] && forall k :: 0 <= k < |walk| - 1 ==> edge(walk[k], walk[k + 1])
  {
    if IsWalk(graph, walk) {
      forall k | 0 <= k < |walk| - 1 ensures edge(walk[k], walk[k + 1]) { assert walk[k] in graph; }
    }
    if walk != [] && forall k :: 0 <= k < |walk| - 1 ==> edge(walk[k], walk[k + 1]) {
      forall k | 0 <= k < |walk| - 1 ensures walk[k] in graph && walk[k + 1] in graph[walk[k]] { assert edge(walk[k], walk[k + 1]); }
    }
  }

  lemma {:induction false} SnapshotWalksAreWalks(snapshots: map<Id, Snapshot>, walk: seq<Id>)
    ensures SnapshotWalk(snapshots, walk) <==> IsWalk(SnapshotGraph(snapshots), walk)
  {
    hide SnapshotParents, Names;
    var graph := SnapshotGraph(snapshots);
    forall id, p ensures IsSnapshotParent(snapshots, id, p) <==> id in graph && p in graph[id] {
      if id in snapshots { ParentsOfSnapshot(snapshots[id]); }
    }
    SameWalks(graph, walk, (id, p) => IsSnapshotParent(snapshots, id, p));
  }

  lemma {:induction false} ArtifactWalksAreWalks(artifacts: Option<map<Id, seq<Id>>>, walk: seq<Id>)
    ensures ArtifactWalk(artifacts, walk) <==> IsWalk(ArtifactGraph(artifacts), walk)
  {
    hide ArtifactParents;
    var graph := ArtifactGraph(artifacts);
    forall id, p ensures IsArtifactParent(artifacts, id, p) <==> id in graph && p in graph[id] {
      if artifacts.Some? && id in artifacts.value { ParentsOfArtifact(artifacts.value[id]); }
    }
    SameWalks(graph, walk, (id, p) => IsArtifactParent(artifacts, id, p));
  }

  lemma {:induction false} SnapshotTraces(snapshots: map<Id, Snapshot>, id: Id)
    ensures SnapshotIsTraceable(snapshots, id) <==> IsComplete(SnapshotGraph(snapshots), id)
  {
    hide IsWalk, SnapshotWalk, NothingTwice, SnapshotParents, IsComplete;
    var graph := SnapshotGraph(snapshots);
    CompleteMeansTraceable(graph, id);
    forall walk ensures SnapshotWalk(snapshots, walk) <==> IsWalk(graph, walk) { SnapshotWalksAreWalks(snapshots, walk); }
    assert SnapshotIsTraceable(snapshots, id) <==> IsTraceable(graph, id) by { StartsAreWalks(graph, id); }
  }

  lemma {:induction false} StartsAreWalks(graph: Graph, id: Id)
    ensures forall walk :: IsWalkFrom(graph, walk, id) <==> IsWalk(graph, walk) && walk[0] == id
  {
  }

  lemma {:induction false} ArtifactTraces(artifacts: Option<map<Id, seq<Id>>>, id: Id)
    ensures ArtifactIsTraceable(artifacts, id) <==> IsComplete(ArtifactGraph(artifacts), id)
  {
    hide IsWalk, ArtifactWalk, NothingTwice, ArtifactParents, IsComplete;
    var graph := ArtifactGraph(artifacts);
    CompleteMeansTraceable(graph, id);
    forall walk ensures ArtifactWalk(artifacts, walk) <==> IsWalk(graph, walk) { ArtifactWalksAreWalks(artifacts, walk); }
    StartsAreWalks(graph, id);
    if artifacts.None? { UnknownIsNotTraceable(graph, id); }
  }

  lemma {:induction false} UnknownIsNotTraceable(graph: Graph, id: Id)
    requires id !in graph
    ensures !IsTraceable(graph, id)
  {
    assert IsWalkFrom(graph, [id], id);
  }

  // ----- What the tree shows -----

  /** Every node shows its recorded parents, in their order. */
  ghost predicate Follows(graph: Graph, tree: Tree)
    decreases tree
  {
    && tree.id in graph && |tree.parents| == |graph[tree.id]|
    && forall k :: 0 <= k < |tree.parents| ==> tree.parents[k].id == graph[tree.id][k] && Follows(graph, tree.parents[k])
  }

  lemma {:induction false} TreeFollowsParents(graph: Graph, id: Id, path: seq<Id>)
    ensures Build(graph, id, path).Some? ==> Build(graph, id, path).value.id == id && Follows(graph, Build(graph, id, path).value)
    decreases Unvisited(graph, path)
  {
    if id in graph && id !in path {
      VisitingDecreases(graph, id, path);
      BuildAllEach(graph, graph[id], path + [id]);
      forall k | 0 <= k < |graph[id]|
        ensures Build(graph, graph[id][k], path + [id]).Some? ==>
          Build(graph, graph[id][k], path + [id]).value.id == graph[id][k] && Follows(graph, Build(graph, graph[id][k], path + [id]).value)
      {
        TreeFollowsParents(graph, graph[id][k], path + [id]);
      }
    }
  }

  function Members(problems: seq<Problem>): set<Problem> { set e | e in problems }

  predicate SlotLe(a: (string, Id), b: (string, Id)) { StringLe(a.0, b.0) }

  ghost function ArtifactTrees(graph: Graph, slots: seq<(string, Id)>): seq<(string, Tree)> {
    if slots == [] then []
    else
      var tree := Build(graph, slots[0].1, []);
      (if tree.Some? then [(slots[0].0, tree.value)] else []) + ArtifactTrees(graph, slots[1..])
  }

  ghost predicate LineageComplete(artifacts: Graph, snapshots: Graph, slots: seq<(string, Id)>, id: Id) {
    && (forall k :: 0 <= k < |slots| ==> IsComplete(artifacts, slots[k].1))
    && IsComplete(snapshots, id)
  }

  // ----- The problems, in the order of the recursion -----

  ghost function ArtifactProblems(graph: Graph, id: Id, path: seq<Id>, root: Id): seq<Problem>
    decreases Unvisited(graph, path), 1, 0
  {
    if id in path then [ArtifactCycle(path + [id])]
    else if id !in graph then [ArtifactMissing(if path == [] then root else path[|path| - 1], id)]
    else
      VisitingDecreases(graph, id, path);
      AllArtifactProblems(graph, graph[id], path + [id], root)
  }

  ghost function AllArtifactProblems(graph: Graph, ids: seq<Id>, path: seq<Id>, root: Id): seq<Problem>
    decreases Unvisited(graph, path), 2, |ids|
  {
    if ids == [] then [] else ArtifactProblems(graph, ids[0], path, root) + AllArtifactProblems(graph, ids[1..], path, root)
  }

  ghost function SnapshotProblems(graph: Graph, id: Id, path: seq<Id>): seq<Problem>
    requires id in graph
    decreases Unvisited(graph, path), 1, 0
  {
    if id in path then [SnapshotCycle(path + [id])]
    else
      VisitingDecreases(graph, id, path);
      AllSnapshotProblems(graph, graph[id], path + [id], id)
  }

  ghost function AllSnapshotProblems(graph: Graph, ids: seq<Id>, path: seq<Id>, child: Id): seq<Problem>
    decreases Unvisited(graph, path), 2, |ids|
  {
    if ids == [] then []
    else
      (if ids[0] in graph then SnapshotProblems(graph, ids[0], path) else [SnapshotMissing(child, ids[0])])
      + AllSnapshotProblems(graph, ids[1..], path, child)
  }

  ghost function SlotProblems(graph: Graph, available: bool, slots: seq<(string, Id)>, root: Id): seq<Problem> {
    if slots == [] then []
    else
      (if available then ArtifactProblems(graph, slots[0].1, [], root) else [Unavailable])
      + SlotProblems(graph, available, slots[1..], root)
  }

  lemma {:induction false} NextArtifactProblems(graph: Graph, ids: seq<Id>, i: nat, path: seq<Id>, root: Id)
    requires i < |ids|
    ensures AllArtifactProblems(graph, ids[i..], path, root)
         == ArtifactProblems(graph, ids[i], path, root) + AllArtifactProblems(graph, ids[i + 1..], path, root)
  {
    assert ids[i..][1..] == ids[i + 1..];
  }

  lemma {:induction false} NextSnapshotProblems(graph: Graph, ids: seq<Id>, i: nat, path: seq<Id>, child: Id)
    requires i < |ids|
    ensures AllSnapshotProblems(graph, ids[i..], path, child)
         == (if ids[i] in graph then SnapshotProblems(graph, ids[i], path) else [SnapshotMissing(child, ids[i])])
            + AllSnapshotProblems(graph, ids[i + 1..], path, child)
  {
    assert ids[i..][1..] == ids[i + 1..];
  }

  lemma {:induction false} NoMoreArtifactProblems(graph: Graph, path: seq<Id>, root: Id)
    ensures AllArtifactProblems(graph, [], path, root) == []
  {
  }

  lemma {:induction false} NoMoreSnapshotProblems(graph: Graph, path: seq<Id>, child: Id)
    ensures AllSnapshotProblems(graph, [], path, child) == []
  {
  }

  /** The recursion reports a problem exactly when it returns no tree. */
  lemma {:induction false} NoArtifactProblems(graph: Graph, id: Id, path: seq<Id>, root: Id)
    ensures ArtifactProblems(graph, id, path, root) == [] <==> Build(graph, id, path).Some?
    decreases Unvisited(graph, path), 1, 0
  {
    if id !in path && id in graph {
      VisitingDecreases(graph, id, path);
      NoneOfArtifactProblems(graph, graph[id], path + [id], root);
    }
  }

  lemma {:induction false} NoneOfArtifactProblems(graph: Graph, ids: seq<Id>, path: seq<Id>, root: Id)
    ensures AllArtifactProblems(graph, ids, path, root) == [] <==> BuildAll(graph, ids, path).Some?
    decreases Unvisited(graph, path), 2, |ids|
  {
    if ids != [] {
      NoArtifactProblems(graph, ids[0], path, root);
      NoneOfArtifactProblems(graph, ids[1..], path, root);
    }
  }

  lemma {:induction false} NoSnapshotProblems(graph: Graph, id: Id, path: seq<Id>)
    requires id in graph
    ensures SnapshotProblems(graph, id, path) == [] <==> Build(graph, id, path).Some?
    decreases Unvisited(graph, path), 1, 0
  {
    if id !in path {
      VisitingDecreases(graph, id, path);
      NoneOfSnapshotProblems(graph, graph[id], path + [id], id);
    }
  }

  lemma {:induction false} NoneOfSnapshotProblems(graph: Graph, ids: seq<Id>, path: seq<Id>, child: Id)
    ensures AllSnapshotProblems(graph, ids, path, child) == [] <==> BuildAll(graph, ids, path).Some?
    decreases Unvisited(graph, path), 2, |ids|
  {
    if ids != [] {
      if ids[0] in graph { NoSnapshotProblems(graph, ids[0], path); }
      NoneOfSnapshotProblems(graph, ids[1..], path, child);
    }
  }

  lemma {:induction false} NoSlotProblems(artifacts: Option<map<Id, seq<Id>>>, slots: seq<(string, Id)>, root: Id)
    ensures var graph := ArtifactGraph(artifacts);
      SlotProblems(graph, artifacts.Some?, slots, root) == [] <==> forall k :: 0 <= k < |slots| ==> IsComplete(graph, slots[k].1)
    decreases |slots|
  {
    hide IsComplete, ArtifactProblems, Build;
    var graph := ArtifactGraph(artifacts);
    if slots != [] {
      var rest := slots[1..];
      NoSlotProblems(artifacts, rest, root);
      NoArtifactProblems(graph, slots[0].1, [], root);
      TreeExactlyWhenComplete(graph, slots[0].1);
      if artifacts.None? { EmptyHasNoTree(slots[0].1); }
      assert forall k :: 0 < k < |slots| ==> slots[k] == rest[k - 1];
      if forall k :: 0 <= k < |slots| ==> IsComplete(graph, slots[k].1) {
        assert forall k :: 0 <= k < |rest| ==> rest[k] == slots[k + 1];
      }
    }
  }

  lemma {:induction false} EmptyHasNoTree(id: Id)
    ensures Build(map[], id, []) == None
  {
  }

  /** The parents found among the first `i` ids: all of them or too few. */
  ghost predicate Collected(graph: Graph, ids: seq<Id>, path: seq<Id>, i: nat, parents: seq<Tree>)
    requires i <= |ids|
  {
    && |parents| <= i
    && (|parents| == i <==> forall k :: 0 <= k < i ==> Build(graph, ids[k], path).Some?)
    && (|parents| == i ==> forall k :: 0 <= k < i ==> Build(graph, ids[k], path) == Some(parents[k]))
  }

  lemma {:induction false} CollectFirst(graph: Graph, ids: seq<Id>, path: seq<Id>)
    ensures Collected(graph, ids, path, 0, [])
  {
  }

  lemma {:induction false} CollectNext(graph: Graph, ids: seq<Id>, path: seq<Id>, i: nat, parents: seq<Tree>)
    requires i < |ids| && Collected(graph, ids, path, i, parents)
    ensures |parents| <= i
    ensures var next := Build(graph, ids[i], path);
      Collected(graph, ids, path, i + 1, if next.Some? then parents + [next.value] else parents)
  {
    hide Build;
  }

  lemma {:induction false} CollectEnd(graph: Graph, ids: seq<Id>, path: seq<Id>, parents: seq<Tree>)
    requires Collected(graph, ids, path, |ids|, parents)
    ensures BuildAll(graph, ids, path) == if |parents| == |ids| then Some(parents) else None
  {
    hide Build;
    BuildAllEach(graph, ids, path);
    if |parents| == |ids| { assert parents == BuildAll(graph, ids, path).value; }
  }

  lemma {:induction false} UnknownHasNoTree(snapshots: map<Id, Snapshot>, id: Id, path: seq<Id>)
    ensures id !in snapshots ==> Build(SnapshotGraph(snapshots), id, path) == None
  {
  }

  // ----- The problems are what they say -----

  /** A missing artifact is not stored and recorded as a parent of the child, or in a slot; a cycle is a descent that comes back. */
  ghost predicate IsReal(graph: Graph, problem: Problem, root: Id, slot: Id) {
    match problem
    case ArtifactMissing(child, id) => id !in graph && (IsWalk(graph, [child, id]) || (child == root && id == slot))
    case ArtifactCycle(path) => IsWalk(graph, path) && path[|path| - 1] in path[..|path| - 1]
    case SnapshotMissing(child, id) => id !in graph && IsWalk(graph, [child, id])
    case SnapshotCycle(path) => IsWalk(graph, path) && path[|path| - 1] in path[..|path| - 1]
    case Unavailable => false
  }

  lemma {:induction false} StepExtendsWalk(graph: Graph, path: seq<Id>, id: Id, next: Id)
    requires IsWalk(graph, path + [id]) && id in graph && next in graph[id]
    ensures IsWalk(graph, path + [id] + [next]) && IsWalk(graph, [id, next])
  {
    var walk := path + [id] + [next];
    forall k | 0 <= k < |walk| - 1 ensures walk[k] in graph && walk[k + 1] in graph[walk[k]] {
      if k < |path| {
        assert walk[k] == (path + [id])[k] && walk[k + 1] == (path + [id])[k + 1];
      }
    }
  }

  lemma {:induction false} ArtifactProblemsAreReal(graph: Graph, id: Id, path: seq<Id>, root: Id, slot: Id)
    requires IsWalk(graph, path + [id]) && (path == [] ==> id == slot)
    ensures forall k :: 0 <= k < |ArtifactProblems(graph, id, path, root)| ==>
      IsReal(graph, ArtifactProblems(graph, id, path, root)[k], root, slot)
    decreases Unvisited(graph, path), 1, 0
  {
    if id in path {
      assert (path + [id])[..|path|] == path;
    } else if id !in graph {
      if path != [] {
        var last := path[|path| - 1];
        assert (path + [id])[|path| - 1] == last && (path + [id])[|path|] == id;
        assert last in graph;
        assert IsWalk(graph, [last, id]);
      }
    } else {
      VisitingDecreases(graph, id, path);
      forall j | 0 <= j < |graph[id]| ensures IsWalk(graph, path + [id] + [graph[id][j]]) {
        StepExtendsWalk(graph, path, id, graph[id][j]);
      }
      AllArtifactProblemsAreReal(graph, graph[id], path + [id], root, slot);
    }
  }

  lemma {:induction false} AllArtifactProblemsAreReal(graph: Graph, ids: seq<Id>, path: seq<Id>, root: Id, slot: Id)
    requires path != [] && forall j :: 0 <= j < |ids| ==> IsWalk(graph, path + [ids[j]])
    ensures forall k :: 0 <= k < |AllArtifactProblems(graph, ids, path, root)| ==>
      IsReal(graph, AllArtifactProblems(graph, ids, path, root)[k], root, slot)
    decreases Unvisited(graph, path), 2, |ids|
  {
    hide IsWalk, IsReal, ArtifactProblems;
    if ids != [] {
      assert IsWalk(graph, path + [ids[0]]);
      assert forall j :: 0 <= j < |ids[1..]| ==> ids[1..][j] == ids[j + 1];
      ArtifactProblemsAreReal(graph, ids[0], path, root, slot);
      AllArtifactProblemsAreReal(graph, ids[1..], path, root, slot);
    }
  }

  lemma {:induction false} SnapshotProblemsAreReal(graph: Graph, id: Id, path: seq<Id>)
    requires id in graph && IsWalk(graph, path + [id])
    ensures forall k :: 0 <= k < |SnapshotProblems(graph, id, path)| ==> IsReal(graph, SnapshotProblems(graph, id, path)[k], "", "")
    decreases Unvisited(graph, path), 1, 0
  {
    if id in path {
      assert (path + [id])[..|path|] == path;
    } else {
      VisitingDecreases(graph, id, path);
      forall j | 0 <= j < |graph[id]| ensures IsWalk(graph, path + [id] + [graph[id][j]]) && IsWalk(graph, [id, graph[id][j]]) {
        StepExtendsWalk(graph, path, id, graph[id][j]);
      }
      AllSnapshotProblemsAreReal(graph, graph[id], path + [id], id);
    }
  }

  lemma {:induction false} AllSnapshotProblemsAreReal(graph: Graph, ids: seq<Id>, path: seq<Id>, child: Id)
    requires forall j :: 0 <= j < |ids| ==> IsWalk(graph, path + [ids[j]]) && IsWalk(graph, [child, ids[j]])
    ensures forall k :: 0 <= k < |AllSnapshotProblems(graph, ids, path, child)| ==>
      IsReal(graph, AllSnapshotProblems(graph, ids, path, child)[k], "", "")
    decreases Unvisited(graph, path), 2, |ids|
  {
    hide IsWalk, SnapshotProblems;
    if ids != [] {
      assert IsWalk(graph, path + [ids[0]]) && IsWalk(graph, [child, ids[0]]);
      assert forall j :: 0 <= j < |ids[1..]| ==> ids[1..][j] == ids[j + 1];
      if ids[0] in graph { SnapshotProblemsAreReal(graph, ids[0], path); }
      AllSnapshotProblemsAreReal(graph, ids[1..], path, child);
    }
  }

  // ----- No problem is left out -----

  /** The walk comes back to where it has been, for the first time. */
  ghost predicate ComesBack(walk: seq<Id>) {
    walk != [] && NothingTwice(walk[..|walk| - 1]) && walk[|walk| - 1] in walk[..|walk| - 1]
  }

  /** The walk ends at an id that is not stored; `before` is what it passes last, or the given root. */
  ghost predicate EndsOutside(graph: Graph, walk: seq<Id>, root: Id, before: Id) {
    walk != [] && walk[|walk| - 1] !in graph && NothingTwice(walk) && before == if |walk| == 1 then root else walk[|walk| - 2]
  }

  lemma {:induction false} AmongAllArtifactProblems(graph: Graph, ids: seq<Id>, path: seq<Id>, root: Id, k: nat, problem: Problem)
    requires k < |ids| && problem in ArtifactProblems(graph, ids[k], path, root)
    ensures problem in AllArtifactProblems(graph, ids, path, root)
    decreases k
  {
    hide ArtifactProblems;
    if k > 0 { AmongAllArtifactProblems(graph, ids[1..], path, root, k - 1, problem); }
  }

  lemma {:induction false} AmongAllSnapshotProblems(graph: Graph, ids: seq<Id>, path: seq<Id>, child: Id, k: nat, problem: Problem)
    requires k < |ids|
    requires if ids[k] in graph then problem in SnapshotProblems(graph, ids[k], path) else problem == SnapshotMissing(child, ids[k])
    ensures problem in AllSnapshotProblems(graph, ids, path, child)
    decreases k
  {
    hide SnapshotProblems;
    if k > 0 { AmongAllSnapshotProblems(graph, ids[1..], path, child, k - 1, problem); }
  }

  lemma {:induction false} FirstIsNew(graph: Graph, path: seq<Id>, walk: seq<Id>)
    requires IsWalk(graph, walk) && |walk| >= 2 && NothingTwice((path + walk)[..|path + walk| - 1])
    ensures walk[0] !in path && walk[0] in graph && walk[1] in graph[walk[0]] && IsWalkFrom(graph, walk[1..], walk[1])
    ensures path + [walk[0]] + walk[1..] == path + walk
    ensures |walk| > 2 ==> walk[1] in graph
  {
    WalkTail(graph, walk);
    var front := (path + walk)[..|path + walk| - 1];
    assert front[|path|] == walk[0] && forall j :: 0 <= j < |path| ==> front[j] == path[j];
  }

  /** Every descent from the artifact that comes back, and every one that leaves what is stored, is reported. */
  lemma {:induction false} ArtifactProblemIsReported(graph: Graph, id: Id, path: seq<Id>, root: Id, walk: seq<Id>, before: Id)
    requires IsWalkFrom(graph, walk, id)
    ensures ComesBack(path + walk) ==> ArtifactCycle(path + walk) in ArtifactProblems(graph, id, path, root)
    ensures EndsOutside(graph, path + walk, root, before) ==>
      ArtifactMissing(before, walk[|walk| - 1]) in ArtifactProblems(graph, id, path, root)
    decreases |walk|
  {
    var whole := path + walk;
    if |walk| >= 2 && (ComesBack(whole) || EndsOutside(graph, whole, root, before)) {
      FirstIsNew(graph, path, walk);
      hide ComesBack, EndsOutside, IsWalk;
      VisitingDecreases(graph, id, path);
      var k :| 0 <= k < |graph[id]| && graph[id][k] == walk[1];
      ArtifactProblemIsReported(graph, walk[1], path + [id], root, walk[1..], before);
      if ComesBack(whole) { AmongAllArtifactProblems(graph, graph[id], path + [id], root, k, ArtifactCycle(whole)); }
      if EndsOutside(graph, whole, root, before) {
        AmongAllArtifactProblems(graph, graph[id], path + [id], root, k, ArtifactMissing(before, walk[|walk| - 1]));
      }
    } else if |walk| == 1 {
      assert walk == [id] && whole[..|path|] == path;
      if EndsOutside(graph, whole, root, before) { assert id !in path; }
    }
  }

  /** The same for the snapshots. */
  lemma {:induction false} SnapshotProblemIsReported(graph: Graph, id: Id, path: seq<Id>, walk: seq<Id>, before: Id)
    requires id in graph && IsWalkFrom(graph, walk, id)
    ensures walk[|walk| - 1] in graph && ComesBack(path + walk) ==> SnapshotCycle(path + walk) in SnapshotProblems(graph, id, path)
    ensures EndsOutside(graph, path + walk, "", before) ==>
      SnapshotMissing(before, walk[|walk| - 1]) in SnapshotProblems(graph, id, path)
    decreases |walk|
  {
    var whole, last := path + walk, walk[|walk| - 1];
    if |walk| >= 2 && ((last in graph && ComesBack(whole)) || EndsOutside(graph, whole, "", before)) {
      FirstIsNew(graph, path, walk);
      hide IsWalk;
      VisitingDecreases(graph, id, path);
      var k :| 0 <= k < |graph[id]| && graph[id][k] == walk[1];
      if walk[1] in graph {
        hide ComesBack, EndsOutside;
        SnapshotProblemIsReported(graph, walk[1], path + [id], walk[1..], before);
        if last in graph && ComesBack(whole) { AmongAllSnapshotProblems(graph, graph[id], path + [id], id, k, SnapshotCycle(whole)); }
        if EndsOutside(graph, whole, "", before) {
          AmongAllSnapshotProblems(graph, graph[id], path + [id], id, k, SnapshotMissing(before, last));
        }
      } else {
        AmongAllSnapshotProblems(graph, graph[id], path + [id], id, k, SnapshotMissing(id, walk[1]));
      }
    } else if |walk| == 1 {
      assert walk == [id] && whole[..|path|] == path;
    }
  }

  lemma {:induction false} AmongSlotProblems(graph: Graph, slots: seq<(string, Id)>, root: Id, k: nat, problem: Problem)
    requires k < |slots| && problem in ArtifactProblems(graph, slots[k].1, [], root)
    ensures problem in SlotProblems(graph, true, slots, root)
    decreases k
  {
    hide ArtifactProblems;
    if k > 0 { AmongSlotProblems(graph, slots[1..], root, k - 1, problem); }
  }

  /**
   * The report leaves nothing out: from every slot, each descent through recorded parents that comes back is reported as
   * that cycle, and each that leaves the stored artifacts is reported with the missing id and with what names it.
   */
  lemma {:induction false} ArtifactBreaksAreReported(artifacts: Option<map<Id, seq<Id>>>, slots: seq<(string, Id)>, root: Id, k: nat,
                                                     walk: seq<Id>)
    requires artifacts.Some? && k < |slots| && ArtifactWalk(artifacts, walk) && walk[0] == slots[k].1
    ensures var problems, last := SlotProblems(ArtifactGraph(artifacts), true, slots, root), walk[|walk| - 1];
      && (NothingTwice(walk[..|walk| - 1]) && last in walk[..|walk| - 1] ==> ArtifactCycle(walk) in problems)
      && (NothingTwice(walk) && last !in artifacts.value ==>
            ArtifactMissing(if |walk| == 1 then root else walk[|walk| - 2], last) in problems)
  {
    hide IsWalk, NothingTwice, ArtifactProblems, SlotProblems, ArtifactParents;
    var graph, last := ArtifactGraph(artifacts), walk[|walk| - 1];
    hide ArtifactWalk;
    var before := if |walk| == 1 then root else walk[|walk| - 2];
    ArtifactWalksAreWalks(artifacts, walk);
    assert [] + walk == walk && IsWalkFrom(graph, walk, slots[k].1);
    ArtifactProblemIsReported(graph, slots[k].1, [], root, walk, before);
    if ComesBack(walk) { AmongSlotProblems(graph, slots, root, k, ArtifactCycle(walk)); }
    if EndsOutside(graph, walk, root, before) { AmongSlotProblems(graph, slots, root, k, ArtifactMissing(before, last)); }
  }

  /** The same for the descents of the snapshot through its parent and superseded fields. */
  lemma {:induction false} SnapshotBreaksAreReported(snapshots: map<Id, Snapshot>, id: Id, walk: seq<Id>)
    requires id in snapshots && SnapshotWalk(snapshots, walk) && walk[0] == id
    ensures var problems, last := SnapshotProblems(SnapshotGraph(snapshots), id, []), walk[|walk| - 1];
      && (NothingTwice(walk[..|walk| - 1]) && last in walk[..|walk| - 1] ==> SnapshotCycle(walk) in problems)
      && (NothingTwice(walk) && last !in snapshots ==> |walk| >= 2 && SnapshotMissing(walk[|walk| - 2], last) in problems)
  {
    hide NothingTwice, SnapshotProblems, SnapshotParents;
    var graph, last := SnapshotGraph(snapshots), walk[|walk| - 1];
    hide SnapshotWalk;
    SnapshotWalksAreWalks(snapshots, walk);
    assert [] + walk == walk && IsWalkFrom(graph, walk, id);
    SnapshotProblemIsReported(graph, id, [], walk, if |walk| == 1 then "" else walk[|walk| - 2]);
    if j :| 0 <= j < |walk| - 1 && walk[j] == last { assert walk[j] in graph; }
  }

  /** One tree per slot, of the slot's artifact and with its recorded parents, by the names of the slots. */
  ghost predicate ShowsSlots(items: seq<(string, Tree)>, slots: seq<(string, Id)>, graph: Graph) {
    && multiset(Shown(items)) == multiset(slots) && SortedBy(Shown(items), SlotLe)
    && forall k :: 0 <= k < |items| ==> Follows(graph, items[k].1)
  }

  function Shown(items: seq<(string, Tree)>): (r: seq<(string, Id)>)
    ensures |r| == |items| && forall k :: 0 <= k < |items| ==> r[k] == (items[k].0, items[k].1.id)
  {
    seq(|items|, k requires 0 <= k < |items| => (items[k].0, items[k].1.id))
  }

  lemma {:induction false} TreePerSlot(graph: Graph, slots: seq<(string, Id)>)
    requires forall k :: 0 <= k < |slots| ==> Build(graph, slots[k].1, []).Some?
    ensures |ArtifactTrees(graph, slots)| == |slots|
    ensures forall k :: 0 <= k < |slots| ==> ArtifactTrees(graph, slots)[k] == (slots[k].0, Build(graph, slots[k].1, []).value)
  {
    hide Build;
    if slots != [] { TreePerSlot(graph, slots[1..]); }
  }

  lemma {:induction false} SlotsAreShown(graph: Graph, slots: seq<(string, Id)>)
    ensures (forall k :: 0 <= k < |slots| ==> IsComplete(graph, slots[k].1)) ==>
      Shown(ArtifactTrees(graph, slots)) == slots
      && forall k :: 0 <= k < |slots| ==> Follows(graph, ArtifactTrees(graph, slots)[k].1)
  {
    hide IsComplete, Build, Follows, ArtifactTrees;
    if forall k :: 0 <= k < |slots| ==> IsComplete(graph, slots[k].1) {
      forall k | 0 <= k < |slots|
        ensures var tree := Build(graph, slots[k].1, []); tree.Some? && tree.value.id == slots[k].1 && Follows(graph, tree.value)
      {
        TreeExactlyWhenComplete(graph, slots[k].1);
        TreeFollowsParents(graph, slots[k].1, []);
      }
      TreePerSlot(graph, slots);
    }
  }

  /** The slots are complete in any order. */
  lemma {:induction false} SlotsAreTraceable(artifacts: Option<map<Id, seq<Id>>>, slots: seq<(string, Id)>)
    ensures var sorted := SortBy(slots, SlotLe);
      && multiset(sorted) == multiset(slots) && SortedBy(sorted, SlotLe)
      && ((forall k :: 0 <= k < |sorted| ==> IsComplete(ArtifactGraph(artifacts), sorted[k].1)) <==>
          (forall k :: 0 <= k < |slots| ==> ArtifactIsTraceable(artifacts, slots[k].1)))
  {
    hide SortBy, IsComplete, ArtifactIsTraceable, ArtifactGraph;
    var sorted := SortBy(slots, SlotLe);
    SlotOrder();
    SortBySorted(slots, SlotLe);
    MultisetMembers(sorted, slots);
    forall id ensures ArtifactIsTraceable(artifacts, id) <==> IsComplete(ArtifactGraph(artifacts), id) { ArtifactTraces(artifacts, id); }
    assert forall k :: 0 <= k < |sorted| ==> sorted[k] in slots;
    assert forall k :: 0 <= k < |slots| ==> slots[k] in sorted;
  }

  lemma {:induction false} SlotOrder()
    ensures TotalPreorder(SlotLe)
  {
    StringLeOrder();
  }

  class LineageReader {
    /** The stored artifacts with their recorded parents; absent when there is no artifact repository. */
    const artifacts: Option<map<Id, seq<Id>>>
    const snapshots: map<Id, Snapshot>
    var errors: seq<Problem>

    constructor (artifacts: Option<map<Id, seq<Id>>>, snapshots: map<Id, Snapshot>)
      ensures this.artifacts == artifacts && this.snapshots == snapshots && errors == []
    {
      this.artifacts, this.snapshots, errors := artifacts, snapshots, [];
    }

    method ArtifactTree(id: Id, path: seq<Id>, root: Id) returns (tree: Option<Tree>)
      modifies this
      ensures tree == Build(ArtifactGraph(artifacts), id, path)
      ensures errors == old(errors) + if artifacts.Some? then ArtifactProblems(ArtifactGraph(artifacts), id, path, root) else [Unavailable]
      decreases Unvisited(ArtifactGraph(artifacts), path), 0
    {
      if artifacts.None? {
        errors := errors + [Unavailable];
        return None;
      }
      if id in path {
        errors := errors + [ArtifactCycle(path + [id])];
        return None;
      }
      if id !in artifacts.value {
        errors := errors + [ArtifactMissing(if path == [] then root else path[|path| - 1], id)];
        return None;
      }
      VisitingDecreases(ArtifactGraph(artifacts), id, path);
      var ids := ArtifactParents(artifacts.value[id]);
      var parents := ArtifactParentTrees(ids, path + [id], root);
      if |parents| != |ids| { return None; }
      tree := Some(Node(id, parents));
    }

    /** The loop over the parents of an artifact. */
    method ArtifactParentTrees(ids: seq<Id>, path: seq<Id>, root: Id) returns (parents: seq<Tree>)
      requires artifacts.Some?
      modifies this
      ensures BuildAll(ArtifactGraph(artifacts), ids, path) == if |parents| == |ids| then Some(parents) else None
      ensures errors == old(errors) + AllArtifactProblems(ArtifactGraph(artifacts), ids, path, root)
      decreases Unvisited(ArtifactGraph(artifacts), path), 1
    {
      hide ArtifactGraph, Build, BuildAll, Collected, ArtifactProblems, AllArtifactProblems, Unvisited;
      ghost var graph := ArtifactGraph(artifacts);
      parents := [];
      CollectFirst(graph, ids, path);
      for i := 0 to |ids|
        invariant Collected(graph, ids, path, i, parents)
        invariant errors + AllArtifactProblems(graph, ids[i..], path, root) == old(errors) + AllArtifactProblems(graph, ids, path, root)
      {
        NextArtifactProblems(graph, ids, i, path, root);
        CollectNext(graph, ids, path, i, parents);
        var parent := ArtifactTree(ids[i], path, root);
        if parent.Some? { parents := parents + [parent.value]; }
      }
      NoMoreArtifactProblems(graph, path, root);
      assert ids[|ids|..] == [];
      CollectEnd(graph, ids, path, parents);
    }

    method SnapshotTree(id: Id, path: seq<Id>) returns (tree: Option<Tree>)
      requires id in snapshots
      modifies this
      ensures tree == Build(SnapshotGraph(snapshots), id, path)
      ensures errors == old(errors) + SnapshotProblems(SnapshotGraph(snapshots), id, path)
      decreases Unvisited(SnapshotGraph(snapshots), path), 0
    {
      if id in path {
        errors := errors + [SnapshotCycle(path + [id])];
        return None;
      }
      VisitingDecreases(SnapshotGraph(snapshots), id, path);
      var ids := SnapshotParents(snapshots[id]);
      var parents := SnapshotParentTrees(id, ids, path + [id]);
      if |parents| != |ids| { return None; }
      tree := Some(Node(id, parents));
    }

    /** The loop over the parent and the superseded snapshot. */
    method SnapshotParentTrees(child: Id, ids: seq<Id>, path: seq<Id>) returns (parents: seq<Tree>)
      modifies this
      ensures BuildAll(SnapshotGraph(snapshots), ids, path) == if |parents| == |ids| then Some(parents) else None
      ensures errors == old(errors) + AllSnapshotProblems(SnapshotGraph(snapshots), ids, path, child)
      decreases Unvisited(SnapshotGraph(snapshots), path), 1
    {
      hide Build, BuildAll, Collected, SnapshotProblems, AllSnapshotProblems, Unvisited, SnapshotParents;
      ghost var graph := SnapshotGraph(snapshots);
      parents := [];
      CollectFirst(graph, ids, path);
      for i := 0 to |ids|
        invariant Collected(graph, ids, path, i, parents)
        invariant errors + AllSnapshotProblems(graph, ids[i..], path, child) == old(errors) + AllSnapshotProblems(graph, ids, path, child)
      {
        NextSnapshotProblems(graph, ids, i, path, child);
        CollectNext(graph, ids, path, i, parents);
        UnknownHasNoTree(snapshots, ids[i], path);
        if ids[i] !in snapshots {
          errors := errors + [SnapshotMissing(child, ids[i])];
        } else {
          var parent := SnapshotTree(ids[i], path);
          if parent.Some? { parents := parents + [parent.value]; }
        }
      }
      NoMoreSnapshotProblems(graph, path, child);
      assert ids[|ids|..] == [];
      CollectEnd(graph, ids, path, parents);
    }

    method ArtifactItems(slots: seq<(string, Id)>, root: Id) returns (items: seq<(string, Tree)>)
      modifies this
      ensures items == ArtifactTrees(ArtifactGraph(artifacts), slots)
      ensures errors == old(errors) + SlotProblems(ArtifactGraph(artifacts), artifacts.Some?, slots, root)
    {
      hide Build, ArtifactGraph;
      ghost var graph := ArtifactGraph(artifacts);
      items := [];
      for i := 0 to |slots|
        invariant items + ArtifactTrees(graph, slots[i..]) == ArtifactTrees(graph, slots)
        invariant errors + SlotProblems(graph, artifacts.Some?, slots[i..], root)
               == old(errors) + SlotProblems(graph, artifacts.Some?, slots, root)
      {
        hide ArtifactProblems;
        assert slots[i..][1..] == slots[i + 1..];
        var tree := ArtifactTree(slots[i].1, [], root);
        if tree.Some? { items := items + [(slots[i].0, tree.value)]; }
      }
      assert slots[|slots|..] == [];
    }

    method GetSnapshotLineage(id: Id) returns (report: Option<Report>)
      modifies this
      ensures report.Some? <==> id in snapshots
      ensures report.Some? ==>
        var artifactGraph, snapshotGraph := ArtifactGraph(artifacts), SnapshotGraph(snapshots);
        var r, slots := report.value, SortBy(snapshots[id].slots, SlotLe);
        && (r.complete <==>
              && (forall k :: 0 <= k < |snapshots[id].slots| ==> ArtifactIsTraceable(artifacts, snapshots[id].slots[k].1))
              && SnapshotIsTraceable(snapshots, id))
        && (r.complete ==> ShowsSlots(r.artifacts, snapshots[id].slots, artifactGraph) && r.snapshots.Some?
                           && r.snapshots.value.id == id && Follows(snapshotGraph, r.snapshots.value))
        && (r.complete <==> LineageComplete(artifactGraph, snapshotGraph, slots, id))
        && (r.complete <==> r.problems == {})
        && r.problems == Members(SlotProblems(artifactGraph, artifacts.Some?, slots, id) + SnapshotProblems(snapshotGraph, id, []))
        && r.artifacts == (if r.complete then ArtifactTrees(artifactGraph, slots) else [])
        && r.snapshots == (if r.complete then Build(snapshotGraph, id, []) else None)
    {
      hide SortBy, Build, IsComplete, ArtifactGraph, SnapshotParents, ArtifactTrees, SlotProblems, SnapshotProblems,
        ArtifactIsTraceable, SnapshotIsTraceable, Follows;
      if id !in snapshots { return None; }
      errors := [];
      var slots := SortBy(snapshots[id].slots, SlotLe);
      var items := ArtifactItems(slots, id);
      var snapshotTree := SnapshotTree(id, []);
      TreeExactlyWhenComplete(SnapshotGraph(snapshots), id);
      NoSnapshotProblems(SnapshotGraph(snapshots), id, []);
      NoSlotProblems(artifacts, slots, id);
      SlotsAreTraceable(artifacts, snapshots[id].slots);
      SnapshotTraces(snapshots, id);
      TreeFollowsParents(SnapshotGraph(snapshots), id, []);
      SlotsAreShown(ArtifactGraph(artifacts), slots);
      var complete := errors == [];
      var problems := Members(errors);
      if complete {
        assert problems == {};
      } else {
        assert errors[0] in problems;
      }
      report := Some(Report(if complete then items else [], if complete then snapshotTree else None, complete, problems));
    }
  }
}

/** The network tree built from a flat list of nodes with arbitrary parent pointers. */
module Hierarchy {

  import opened Sorting
  import opened Text
  import opened Wrappers

  datatype Node = Node(id: string, parent: Option<string>, kind: string, name: string)

  datatype Tree = Tree(node: Node, children: seq<Tree>)

  type Nodes = map<string, Node>
  type Kids = map<string, seq<string>>

  // ---------------------------------------------------------------- indexing

  predicate Valid(nodes: Nodes) {
    forall id :: id in nodes ==> nodes[id].id == id
  }

  /** The nodes by id; a later node replaces an earlier one with its id. */
  ghost function Indexed(flat: seq<Node>): (nodes: Nodes)
    ensures Valid(nodes)
    ensures forall id :: id in nodes ==> nodes[id] in flat
  {
    if flat == [] then map[]
    else
      var last := flat[|flat| - 1];
      Indexed(flat[..|flat| - 1])[last.id := last]
  }

  ghost predicate UniqueIds(flat: seq<Node>) {
    forall i, j :: 0 <= i < j < |flat| ==> flat[i].id != flat[j].id
  }

  lemma {:induction false} UniqueIdsIndexed(flat: seq<Node>)
    requires UniqueIds(flat)
    ensures forall n :: n in flat <==> n.id in Indexed(flat) && Indexed(flat)[n.id] == n
  {
    if flat != [] {
      var init, last := flat[..|flat| - 1], flat[|flat| - 1];
      UniqueIdsIndexed(init);
      forall n
        ensures n in flat <==> n.id in Indexed(flat) && Indexed(flat)[n.id] == n
      {
        assert n in flat <==> n in init || n == last;
        assert n in init ==> n.id != last.id;
      }
    }
  }

  method Index(flat: seq<Node>) returns (nodes: Nodes)
    ensures nodes == Indexed(flat)
  {
    nodes := map[];
    for k := 0 to |flat|
      invariant nodes == Indexed(flat[..k])
    {
      assert flat[..k + 1][..k] == flat[..k];
      nodes := nodes[flat[k].id := flat[k]];
    }
    assert flat[..|flat|] == flat;
  }

  // ---------------------------------------------------------------- grouping

  /** No parent, or a parent that is not listed. */
  predicate IsRoot(nodes: Nodes, id: string) {
    id in nodes && (nodes[id].parent.None? || nodes[id].parent.value !in nodes)
  }

  predicate IsChild(nodes: Nodes, id: string, parent: string) {
    id in nodes && parent in nodes && nodes[id].parent == Some(parent)
  }

  function KidsOf(kids: Kids, id: string): seq<string> {
    if id in kids then kids[id] else []
  }

  /** `ks` lists each child of `p` outside `todo` once. */
  ghost predicate ListsChildren(nodes: Nodes, ks: seq<string>, p: string, todo: set<string>) {
    Distinct(ks) && forall id :: id in ks <==> IsChild(nodes, id, p) && id !in todo
  }

  ghost predicate ListsRoots(nodes: Nodes, ks: seq<string>, todo: set<string>) {
    Distinct(ks) && forall id :: id in ks <==> IsRoot(nodes, id) && id !in todo
  }

  ghost predicate Grouped(nodes: Nodes, kids: Kids) {
    Valid(nodes) && forall p :: ListsChildren(nodes, KidsOf(kids, p), p, {})
  }

  /** Splits the ids into roots and children by parent, in the order of a Go map: any order. */
  method Group(nodes: Nodes) returns (kids: Kids, roots: seq<string>)
    requires Valid(nodes)
    ensures Grouped(nodes, kids)
    ensures ListsRoots(nodes, roots, {})
  {
    kids, roots := map[], [];
    var todo := nodes.Keys;
    while todo != {}
      invariant todo <= nodes.Keys
      invariant ListsRoots(nodes, roots, todo)
      invariant forall p :: ListsChildren(nodes, KidsOf(kids, p), p, todo)
    {
      var id :| id in todo;
      ghost var before := kids;
      var parent := nodes[id].parent;
      if parent.Some? && parent.value in nodes {
        kids := kids[parent.value := KidsOf(kids, parent.value) + [id]];
      } else {
        roots := roots + [id];
      }
      forall p
        ensures ListsChildren(nodes, KidsOf(kids, p), p, todo - {id})
      {
        assert ListsChildren(nodes, KidsOf(before, p), p, todo);
        assert KidsOf(kids, p) == KidsOf(before, p) + if IsChild(nodes, id, p) then [id] else [];
      }
      todo := todo - {id};
    }
  }

  // ---------------------------------------------------------------- parent chains

  /** A parent chain read from the root down. */
  ghost predicate IsPath(nodes: Nodes, path: seq<string>) {
    |path| > 0 && IsRoot(nodes, path[0])
    && forall i, j :: 0 <= i < j < |path| && j == i + 1 ==> IsChild(nodes, path[j], path[i])
  }

  ghost predicate Ends(path: seq<string>, id: string) {
    |path| > 0 && path[|path| - 1] == id
  }

  /** The parent chain of `id` ends at a node whose parent is absent or missing. */
  ghost predicate Grounded(nodes: Nodes, id: string) {
    exists path :: IsPath(nodes, path) && Ends(path, id)
  }

  lemma OnPath(nodes: Nodes, path: seq<string>, i: nat)
    requires IsPath(nodes, path) && i < |path|
    ensures path[i] in nodes
    ensures i > 0 ==> nodes[path[i]].parent == Some(path[i - 1]) && path[i - 1] in nodes
  {
    assert path[0] in nodes;
    if i > 0 {
      var h := i - 1;
      assert IsChild(nodes, path[i], path[h]);
    }
  }

  lemma {:induction false} PathDistinct(nodes: Nodes, path: seq<string>, i: nat, j: nat)
    requires IsPath(nodes, path) && i < j < |path|
    ensures path[i] != path[j]
  {
    OnPath(nodes, path, i);
    OnPath(nodes, path, j);
    if i > 0 {
      PathDistinct(nodes, path, i - 1, j - 1);
    }
  }

  lemma {:induction false} DistinctFits(path: seq<string>, ids: set<string>)
    requires Distinct(path) && forall i :: 0 <= i < |path| ==> path[i] in ids
    ensures |path| <= |ids|
  {
    if path != [] {
      var n := |path| - 1;
      DistinctFits(path[..n], ids - {path[n]});
    }
  }

  lemma PathFits(nodes: Nodes, path: seq<string>)
    requires IsPath(nodes, path)
    ensures |path| <= |nodes|
  {
    forall i, j | 0 <= i < j < |path|
      ensures path[i] != path[j]
    {
      PathDistinct(nodes, path, i, j);
    }
    forall i | 0 <= i < |path|
      ensures path[i] in nodes.Keys
    {
      OnPath(nodes, path, i);
    }
    DistinctFits(path, nodes.Keys);
  }

  lemma {:induction false} PathUnique(nodes: Nodes, p: seq<string>, q: seq<string>)
    requires IsPath(nodes, p) && IsPath(nodes, q) && p[|p| - 1] == q[|q| - 1]
    ensures p == q
    decreases |p|
  {
    OnPath(nodes, p, |p| - 1);
    OnPath(nodes, q, |q| - 1);
    if |p| > 1 && |q| > 1 {
      PathUnique(nodes, p[..|p| - 1], q[..|q| - 1]);
      assert p == p[..|p| - 1] + [p[|p| - 1]];
      assert q == q[..|q| - 1] + [q[|q| - 1]];
    }
  }

  // ---------------------------------------------------------------- sorting siblings

  predicate TreeLess(a: Tree, b: Tree) {
    if a.node.kind == b.node.kind then Less(a.node.name, b.node.name) else Less(a.node.kind, b.node.kind)
  }

  /** Siblings by kind then name, at every level; the order of two trees is that of their top nodes. */
  function SortForest(ts: seq<Tree>): seq<Tree>
    decreases ts, 1
  {
    StableSort(SortEach(ts), TreeLess)
  }

  function SortEach(ts: seq<Tree>): seq<Tree>
    decreases ts, 0
  {
    if ts == [] then []
    else
      var last := ts[|ts| - 1];
      SortEach(ts[..|ts| - 1]) + [Tree(last.node, SortForest(last.children))]
  }

  // ---------------------------------------------------------------- building

  /** The subtree under the last id of `path`; the path only measures termination. */
  function Build(nodes: Nodes, kids: Kids, id: string, ghost path: seq<string>): (t: Tree)
    requires Grouped(nodes, kids) && IsPath(nodes, path) && Ends(path, id)
    ensures id in nodes && t.node == nodes[id]
    decreases |nodes| - |path|, 1, 0
  {
    PathFits(nodes, path);
    OnPath(nodes, path, |path| - 1);
    assert ListsChildren(nodes, KidsOf(kids, id), id, {});
    Tree(nodes[id], SortForest(BuildEach(nodes, kids, KidsOf(kids, id), path)))
  }

  ghost predicate Extends(nodes: Nodes, path: seq<string>, ks: seq<string>) {
    forall i :: 0 <= i < |ks| ==> IsPath(nodes, path + [ks[i]])
  }

  function BuildEach(nodes: Nodes, kids: Kids, ks: seq<string>, ghost path: seq<string>): (ts: seq<Tree>)
    requires Grouped(nodes, kids) && |path| <= |nodes|
    requires Extends(nodes, path, ks)
    ensures |ts| == |ks| && forall i :: 0 <= i < |ks| ==> ts[i].node.id == ks[i]
    decreases |nodes| - |path|, 0, |ks|
  {
    if ks == [] then []
    else
      var n := |ks| - 1;
      PathFits(nodes, path + [ks[n]]);
      BuildEach(nodes, kids, ks[..n], path) + [Build(nodes, kids, ks[n], path + [ks[n]])]
  }

  // ---------------------------------------------------------------- what the forest contains

  ghost function Ids(ts: seq<Tree>): multiset<string>
    decreases ts, 0
  {
    if ts == [] then multiset{} else Ids(ts[..|ts| - 1]) + IdsOf(ts[|ts| - 1])
  }

  ghost function IdsOf(t: Tree): multiset<string>
    decreases t, 1
  {
    multiset{t.node.id} + Ids(t.children)
  }

  lemma IdsSnoc(ts: seq<Tree>, t: Tree)
    ensures Ids(ts + [t]) == Ids(ts) + IdsOf(t)
  {
    assert (ts + [t])[..|ts|] == ts;
  }

  lemma {:induction false} InsertKeepsIds(ts: seq<Tree>, t: Tree)
    ensures Ids(InsertBy(ts, t, TreeLess)) == Ids(ts) + IdsOf(t)
  {
    if ts != [] && TreeLess(t, ts[|ts| - 1]) {
      InsertKeepsIds(ts[..|ts| - 1], t);
      assert InsertBy(ts, t, TreeLess)[..|ts|] == InsertBy(ts[..|ts| - 1], t, TreeLess);
    } else {
      assert (ts + [t])[..|ts|] == ts;
    }
  }

  lemma {:induction false} StableSortKeepsIds(ts: seq<Tree>)
    ensures Ids(StableSort(ts, TreeLess)) == Ids(ts)
  {
    if ts != [] {
      StableSortKeepsIds(ts[..|ts| - 1]);
      InsertKeepsIds(StableSort(ts[..|ts| - 1], TreeLess), ts[|ts| - 1]);
    }
  }

  /** Sorting loses and duplicates no node at any level. */
  lemma {:induction false} SortKeepsIds(ts: seq<Tree>)
    ensures Ids(SortForest(ts)) == Ids(ts)
    decreases ts, 1
  {
    SortEachKeepsIds(ts);
    StableSortKeepsIds(SortEach(ts));
  }

  lemma {:induction false} SortEachKeepsIds(ts: seq<Tree>)
    ensures Ids(SortEach(ts)) == Ids(ts)
    decreases ts, 0
  {
    if ts != [] {
      var n := |ts| - 1;
      SortEachKeepsIds(ts[..n]);
      SortKeepsIds(ts[n].children);
      assert SortEach(ts)[..|SortEach(ts)| - 1] == SortEach(ts[..n]);
    }
  }

  lemma BuildIds(nodes: Nodes, kids: Kids, id: string, path: seq<string>)
    requires Grouped(nodes, kids) && IsPath(nodes, path) && Ends(path, id)
    ensures |path| <= |nodes| && id in nodes
    ensures Extends(nodes, path, KidsOf(kids, id)) && Distinct(KidsOf(kids, id))
    ensures IdsOf(Build(nodes, kids, id, path)) == multiset{id} + Ids(BuildEach(nodes, kids, KidsOf(kids, id), path))
  {
    PathFits(nodes, path);
    OnPath(nodes, path, |path| - 1);
    assert ListsChildren(nodes, KidsOf(kids, id), id, {});
    SortKeepsIds(BuildEach(nodes, kids, KidsOf(kids, id), path));
  }

  lemma BuildEachFits(nodes: Nodes, kids: Kids, ks: seq<string>, path: seq<string>)
    requires Grouped(nodes, kids) && |path| <= |nodes| && Extends(nodes, path, ks) && ks != []
    ensures |path| < |nodes| && Extends(nodes, path, ks[..|ks| - 1]) && IsPath(nodes, path + [ks[|ks| - 1]])
  {
    PathFits(nodes, path + [ks[|ks| - 1]]);
  }

  lemma BuildEachIds(nodes: Nodes, kids: Kids, ks: seq<string>, path: seq<string>)
    requires Grouped(nodes, kids) && |path| <= |nodes| && Extends(nodes, path, ks) && ks != []
    ensures |path| < |nodes| && Extends(nodes, path, ks[..|ks| - 1]) && IsPath(nodes, path + [ks[|ks| - 1]])
    ensures Ids(BuildEach(nodes, kids, ks, path))
         == Ids(BuildEach(nodes, kids, ks[..|ks| - 1], path))
          + IdsOf(Build(nodes, kids, ks[|ks| - 1], path + [ks[|ks| - 1]]))
  {
    var n := |ks| - 1;
    BuildEachFits(nodes, kids, ks, path);
    IdsSnoc(BuildEach(nodes, kids, ks[..n], path), Build(nodes, kids, ks[n], path + [ks[n]]));
  }

  /** A path beyond `path` goes on to one of its children. */
  lemma PathGoesOn(nodes: Nodes, kids: Kids, id: string, path: seq<string>, q: seq<string>)
    requires Grouped(nodes, kids) && IsPath(nodes, path) && Ends(path, id) && IsPath(nodes, q)
    ensures q[|q| - 1] == id <==> path == q
    ensures path <= q <==> path == q || (path < q && q[|path|] in KidsOf(kids, id))
  {
    if q[|q| - 1] == id {
      PathUnique(nodes, path, q);
    }
    if path <= q && path != q {
      assert IsChild(nodes, q[|path|], q[|path| - 1]);
      assert ListsChildren(nodes, KidsOf(kids, id), id, {});
    }
  }

  lemma NextOnPath(path: seq<string>, ks: seq<string>, n: nat, q: seq<string>)
    requires n < |ks| && n == |ks| - 1 && Distinct(ks)
    ensures path + [ks[n]] <= q <==> path < q && q[|path|] == ks[n]
    ensures path < q ==> (q[|path|] in ks <==> q[|path|] in ks[..n] || q[|path|] == ks[n])
    ensures ks[n] !in ks[..n] && Distinct(ks[..n])
  {
  }

  /** A subtree holds the node at the end of `q` once if `q` runs through its top node, and not at all otherwise. */
  lemma {:induction false} BuildHolds(nodes: Nodes, kids: Kids, id: string, path: seq<string>, q: seq<string>)
    requires Grouped(nodes, kids) && IsPath(nodes, path) && Ends(path, id) && IsPath(nodes, q)
    ensures IdsOf(Build(nodes, kids, id, path))[q[|q| - 1]] == if path <= q then 1 else 0
    decreases |nodes| - |path|, 1, 0
  {
    BuildIds(nodes, kids, id, path);
    BuildEachHolds(nodes, kids, KidsOf(kids, id), path, q);
    PathGoesOn(nodes, kids, id, path, q);
  }

  lemma {:induction false} BuildEachHolds(nodes: Nodes, kids: Kids, ks: seq<string>, path: seq<string>, q: seq<string>)
    requires Grouped(nodes, kids) && |path| <= |nodes| && Extends(nodes, path, ks) && Distinct(ks)
    requires IsPath(nodes, q)
    ensures Ids(BuildEach(nodes, kids, ks, path))[q[|q| - 1]]
         == if path < q && q[|path|] in ks then 1 else 0
    decreases |nodes| - |path|, 0, |ks|
  {
    if ks != [] {
      var n := |ks| - 1;
      BuildEachIds(nodes, kids, ks, path);
      BuildEachHolds(nodes, kids, ks[..n], path, q);
      BuildHolds(nodes, kids, ks[n], path + [ks[n]], q);
      NextOnPath(path, ks, n, q);
    }
  }

  /** Only grounded nodes are built. */
  lemma {:induction false} BuildGrounded(nodes: Nodes, kids: Kids, id: string, path: seq<string>, x: string)
    requires Grouped(nodes, kids) && IsPath(nodes, path) && Ends(path, id) && !Grounded(nodes, x)
    ensures IdsOf(Build(nodes, kids, id, path))[x] == 0
    decreases |nodes| - |path|, 1, 0
  {
    BuildIds(nodes, kids, id, path);
    BuildEachGrounded(nodes, kids, KidsOf(kids, id), path, x);
  }

  lemma {:induction false} BuildEachGrounded(nodes: Nodes, kids: Kids, ks: seq<string>, path: seq<string>, x: string)
    requires Grouped(nodes, kids) && |path| <= |nodes| && Extends(nodes, path, ks) && !Grounded(nodes, x)
    ensures Ids(BuildEach(nodes, kids, ks, path))[x] == 0
    decreases |nodes| - |path|, 0, |ks|
  {
    if ks != [] {
      var n := |ks| - 1;
      BuildEachIds(nodes, kids, ks, path);
      BuildEachGrounded(nodes, kids, ks[..n], path, x);
      BuildGrounded(nodes, kids, ks[n], path + [ks[n]], x);
    }
  }

  // ---------------------------------------------------------------- where the nodes hang

  /** Every node is a listed one and hangs below the node its parent pointer names. */
  ghost predicate Placed(nodes: Nodes, t: Tree) {
    t.node.id in nodes && t.node == nodes[t.node.id]
    && forall c :: c in t.children ==> c.node.parent == Some(t.node.id) && Placed(nodes, c)
  }

  lemma InStableSort(ts: seq<Tree>)
    ensures forall t :: t in StableSort(ts, TreeLess) <==> t in ts
  {
    SameElements(ts, StableSort(ts, TreeLess));
  }

  lemma {:induction false} SortedPlaced(nodes: Nodes, t: Tree)
    requires Placed(nodes, t)
    ensures Placed(nodes, Tree(t.node, SortForest(t.children)))
    decreases t, 1
  {
    EachPlaced(nodes, t.children);
    InStableSort(SortEach(t.children));
  }

  lemma {:induction false} EachPlaced(nodes: Nodes, ts: seq<Tree>)
    requires forall c :: c in ts ==> Placed(nodes, c)
    ensures forall c :: c in SortEach(ts) ==> Placed(nodes, c) && exists d :: d in ts && d.node == c.node
    decreases ts, 0
  {
    if ts != [] {
      EachPlaced(nodes, ts[..|ts| - 1]);
      SortedPlaced(nodes, ts[|ts| - 1]);
      var last := ts[|ts| - 1];
      assert last in ts;
    }
  }

  lemma {:induction false} BuildPlaced(nodes: Nodes, kids: Kids, id: string, path: seq<string>)
    requires Grouped(nodes, kids) && IsPath(nodes, path) && Ends(path, id)
    ensures Placed(nodes, Build(nodes, kids, id, path))
    decreases |nodes| - |path|, 1, 0
  {
    BuildIds(nodes, kids, id, path);
    var ks := KidsOf(kids, id);
    assert ListsChildren(nodes, ks, id, {});
    BuildEachPlaced(nodes, kids, ks, path);
    SortedPlaced(nodes, Tree(nodes[id], BuildEach(nodes, kids, ks, path)));
  }

  lemma {:induction false} BuildEachPlaced(nodes: Nodes, kids: Kids, ks: seq<string>, path: seq<string>)
    requires Grouped(nodes, kids) && |path| <= |nodes| && Extends(nodes, path, ks)
    ensures forall c :: c in BuildEach(nodes, kids, ks, path) ==> Placed(nodes, c) && c.node.id in ks
    decreases |nodes| - |path|, 0, |ks|
  {
    if ks != [] {
      var n := |ks| - 1;
      BuildEachIds(nodes, kids, ks, path);
      BuildEachPlaced(nodes, kids, ks[..n], path);
      BuildPlaced(nodes, kids, ks[n], path + [ks[n]]);
    }
  }

  // ---------------------------------------------------------------- the order of siblings

  lemma TreeLessWeak()
    ensures WeakOrder(TreeLess)
  {
    forall x, y, z
      ensures TreeLess(x, y) ==> !TreeLess(y, x)
      ensures !TreeLess(x, y) && !TreeLess(y, z) ==> !TreeLess(x, z)
    {
      LessWeak(x.node.kind, y.node.kind, z.node.kind);
      LessWeak(x.node.name, y.node.name, z.node.name);
      LessWeak(y.node.kind, z.node.kind, x.node.kind);
      LessWeak(z.node.kind, x.node.kind, y.node.kind);
      LessWeak(z.node.kind, y.node.kind, x.node.kind);
    }
  }

  /** Siblings stand by kind, then by name, at every level. */
  ghost predicate InOrder(ts: seq<Tree>) {
    (forall i, j :: 0 <= i < j < |ts| ==> ComesBefore(ts[i].node, ts[j].node)) && forall t :: t in ts ==> InOrder(t.children)
  }

  /** An earlier kind, or the same kind and a name that is not later. */
  ghost predicate ComesBefore(a: Node, b: Node) {
    Before(a.kind, b.kind) || (a.kind == b.kind && (a.name == b.name || Before(a.name, b.name)))
  }

  lemma NotLessComesBefore(a: Tree, b: Tree)
    requires !TreeLess(b, a)
    ensures ComesBefore(a.node, b.node)
  {
    LessIff(a.node.kind, b.node.kind);
    LessIff(a.node.name, b.node.name);
    LessWeak(a.node.kind, b.node.kind, a.node.kind);
    LessWeak(a.node.name, b.node.name, a.node.name);
  }

  lemma {:induction false} SortPutsInOrder(ts: seq<Tree>)
    ensures InOrder(SortForest(ts))
    decreases ts, 1
  {
    SortEachInOrder(ts);
    TreeLessWeak();
    SortOrders(SortEach(ts), TreeLess);
    InStableSort(SortEach(ts));
    var sorted := SortForest(ts);
    forall i, j | 0 <= i < j < |sorted|
      ensures ComesBefore(sorted[i].node, sorted[j].node)
    {
      NotLessComesBefore(sorted[i], sorted[j]);
    }
  }

  lemma {:induction false} SortEachInOrder(ts: seq<Tree>)
    ensures forall t :: t in SortEach(ts) ==> InOrder(t.children)
    decreases ts, 0
  {
    if ts != [] {
      SortEachInOrder(ts[..|ts| - 1]);
      SortPutsInOrder(ts[|ts| - 1].children);
    }
  }

  // ---------------------------------------------------------------- the whole forest

  /** The forest of the grounded nodes, each once, at the place its parent pointer gives it. */
  ghost predicate IsForest(nodes: Nodes, forest: seq<Tree>) {
    (forall id :: Ids(forest)[id] == if Grounded(nodes, id) then 1 else 0)
    && forall t :: t in forest ==> Placed(nodes, t) && IsRoot(nodes, t.node.id)
  }

  lemma BuiltForest(nodes: Nodes, kids: Kids, roots: seq<string>)
    requires Grouped(nodes, kids) && ListsRoots(nodes, roots, {})
    ensures Extends(nodes, [], roots)
    ensures IsForest(nodes, SortForest(BuildEach(nodes, kids, roots, [])))
  {
    forall i | 0 <= i < |roots|
      ensures IsPath(nodes, [] + [roots[i]])
    {
      assert roots[i] in roots;
    }
    var forest := BuildEach(nodes, kids, roots, []);
    SortKeepsIds(forest);
    forall id
      ensures Ids(forest)[id] == if Grounded(nodes, id) then 1 else 0
    {
      if Grounded(nodes, id) {
        var q :| IsPath(nodes, q) && Ends(q, id);
        BuildEachHolds(nodes, kids, roots, [], q);
      } else {
        BuildEachGrounded(nodes, kids, roots, [], id);
      }
    }
    BuildEachPlaced(nodes, kids, roots, []);
    EachPlaced(nodes, forest);
    InStableSort(SortEach(forest));
  }

  method BuildNetworkHierarchy(flat: seq<Node>) returns (forest: seq<Tree>)
    ensures IsForest(Indexed(flat), forest)
    ensures InOrder(forest)
  {
    var nodes := Index(flat);
    var kids, roots := Group(nodes);
    BuiltForest(nodes, kids, roots);
    forest := BuildEach(nodes, kids, roots, []);
    SortPutsInOrder(forest);
    forest := SortForest(forest);
  }

  // ---------------------------------------------------------------- consequences

  /** Whatever hangs from a grounded node is grounded, and nothing else is, except roots. */
  lemma GroundedByParent(nodes: Nodes, id: string)
    ensures Grounded(nodes, id) <==>
            IsRoot(nodes, id) || (id in nodes && nodes[id].parent.Some? && Grounded(nodes, nodes[id].parent.value))
  {
    if Grounded(nodes, id) && !IsRoot(nodes, id) {
      var path :| IsPath(nodes, path) && Ends(path, id);
      OnPath(nodes, path, |path| - 1);
      assert |path| > 1;
      assert IsPath(nodes, path[..|path| - 1]) && Ends(path[..|path| - 1], nodes[id].parent.value);
    }
    if IsRoot(nodes, id) {
      assert IsPath(nodes, [id]) && Ends([id], id);
    } else if id in nodes && nodes[id].parent.Some? && Grounded(nodes, nodes[id].parent.value) {
      var path :| IsPath(nodes, path) && Ends(path, nodes[id].parent.value);
      OnPath(nodes, path, |path| - 1);
      assert IsPath(nodes, path + [id]) && Ends(path + [id], id);
    }
  }

  /** `above` is `steps` parents up from `id`. */
  ghost predicate Climbs(nodes: Nodes, id: string, above: string, steps: nat)
    decreases steps
  {
    if steps == 0 then id == above
    else id in nodes && nodes[id].parent.Some? && Climbs(nodes, nodes[id].parent.value, above, steps - 1)
  }

  ghost predicate OnCycle(nodes: Nodes, id: string) {
    id in nodes && exists steps: nat :: steps > 0 && Climbs(nodes, id, id, steps)
  }

  ghost predicate RunsIntoCycle(nodes: Nodes, id: string) {
    exists above, steps: nat :: Climbs(nodes, id, above, steps) && OnCycle(nodes, above)
  }

  lemma {:induction false} ClimbsPath(nodes: Nodes, path: seq<string>, i: nat, above: string, steps: nat)
    requires IsPath(nodes, path) && i < |path| && Climbs(nodes, path[i], above, steps) && above in nodes
    ensures steps <= i && above == path[i - steps]
    decreases steps
  {
    if steps > 0 {
      OnPath(nodes, path, i);
      if i > 0 {
        ClimbsPath(nodes, path, i - 1, above, steps - 1);
      } else {
        assert false;
      }
    }
  }

  lemma {:induction false} ClimbFurther(nodes: Nodes, id: string, above: string, steps: nat)
    requires Climbs(nodes, id, above, steps) && above in nodes && nodes[above].parent.Some?
    ensures Climbs(nodes, id, nodes[above].parent.value, steps + 1)
    decreases steps
  {
    if steps > 0 {
      ClimbFurther(nodes, nodes[id].parent.value, above, steps - 1);
    } else {
      assert Climbs(nodes, nodes[id].parent.value, nodes[above].parent.value, 0);
    }
  }

  /** The first `n` nodes up from an ungrounded one, all ungrounded. */
  lemma {:induction false} EndlessClimb(nodes: Nodes, id: string, n: nat) returns (up: seq<string>)
    requires id in nodes && !Grounded(nodes, id)
    ensures |up| == n + 1 && up[0] == id
    ensures forall i :: 0 <= i <= n ==> up[i] in nodes && !Grounded(nodes, up[i]) && Climbs(nodes, id, up[i], i)
    ensures forall i, j :: 0 <= i <= j <= n ==> Climbs(nodes, up[i], up[j], j - i)
  {
    if n == 0 {
      up := [id];
    } else {
      up := EndlessClimb(nodes, id, n - 1);
      var last := up[n - 1];
      GroundedByParent(nodes, last);
      var parent := nodes[last].parent.value;
      forall i | 0 <= i < n
        ensures Climbs(nodes, up[i], parent, n - i)
      {
        ClimbFurther(nodes, up[i], last, n - 1 - i);
      }
      up := up + [parent];
    }
  }

  /** The listed nodes left out of the forest are exactly those whose parent chain runs into a cycle. */
  lemma DroppedIffCyclic(nodes: Nodes, id: string)
    requires id in nodes
    ensures !Grounded(nodes, id) <==> RunsIntoCycle(nodes, id)
  {
    if Grounded(nodes, id) {
      var path :| IsPath(nodes, path) && Ends(path, id);
      forall above, steps: nat | Climbs(nodes, id, above, steps)
        ensures !OnCycle(nodes, above)
      {
        if OnCycle(nodes, above) {
          ClimbsPath(nodes, path, |path| - 1, above, steps);
          var i := |path| - 1 - steps;
          var round: nat :| round > 0 && Climbs(nodes, above, above, round);
          ClimbsPath(nodes, path, i, above, round);
          PathDistinct(nodes, path, i - round, i);
        }
      }
    } else {
      var up := EndlessClimb(nodes, id, |nodes|);
      if Distinct(up) {
        DistinctFits(up, nodes.Keys);
      }
      var i, j :| 0 <= i < j < |up| && up[i] == up[j];
      assert Climbs(nodes, up[i], up[i], j - i);
      var above, steps: nat := up[i], i;
      assert Climbs(nodes, id, above, steps) && OnCycle(nodes, above);
    }
  }
}

/**
 Connected components of the tight affinities by union-find with path halving. The groups
 are proved to be exactly the classes of sources joined by a path of edges.
 */
module Components {
  import opened Ordering

  // --- what connected means ------------------------------------------------------------

  /** An edge names two sources by key, in either direction. */
  type Edge = (Id, Id)

  ghost predicate Linked(keys: seq<Id>, edges: seq<Edge>, a: nat, b: nat) {
    a < |keys| && b < |keys| && ((keys[a], keys[b]) in edges || (keys[b], keys[a]) in edges)
  }

  ghost predicate IsPath(keys: seq<Id>, edges: seq<Edge>, path: seq<nat>) {
    forall i, j :: 0 <= i && j == i + 1 < |path| ==> Linked(keys, edges, path[i], path[j])
  }

  ghost predicate Joins(keys: seq<Id>, edges: seq<Edge>, path: seq<nat>, a: nat, b: nat) {
    path != [] && path[0] == a && path[|path| - 1] == b && IsPath(keys, edges, path)
  }

  ghost predicate Connected(keys: seq<Id>, edges: seq<Edge>, a: nat, b: nat) {
    exists path :: Joins(keys, edges, path, a, b)
  }

  lemma ConnectedSelf(keys: seq<Id>, edges: seq<Edge>, a: nat)
    ensures Connected(keys, edges, a, a)
  {
    assert Joins(keys, edges, [a], a, a);
  }

  lemma ConnectedLink(keys: seq<Id>, edges: seq<Edge>, a: nat, b: nat)
    requires Linked(keys, edges, a, b)
    ensures Connected(keys, edges, a, b)
  {
    assert Joins(keys, edges, [a, b], a, b);
  }

  lemma ConnectedTrans(keys: seq<Id>, edges: seq<Edge>, a: nat, b: nat, c: nat)
    requires Connected(keys, edges, a, b) && Connected(keys, edges, b, c)
    ensures Connected(keys, edges, a, c)
  {
    var p :| Joins(keys, edges, p, a, b);
    var q :| Joins(keys, edges, q, b, c);
    var r := p + q[1..];
    forall i, j | 0 <= i && j == i + 1 < |r| ensures Linked(keys, edges, r[i], r[j]) {
      if j < |p| {
        assert Linked(keys, edges, p[i], p[j]);
      } else {
        assert r[i] == q[i - |p| + 1] && r[j] == q[j - |p| + 1];
      }
    }
    assert Joins(keys, edges, r, a, c);
  }

  lemma ConnectedMore(keys: seq<Id>, edges: seq<Edge>, e: Edge, a: nat, b: nat)
    requires Connected(keys, edges, a, b)
    ensures Connected(keys, edges + [e], a, b)
  {
    var p :| Joins(keys, edges, p, a, b);
    forall i, j | 0 <= i && j == i + 1 < |p| ensures Linked(keys, edges + [e], p[i], p[j]) {
      assert Linked(keys, edges, p[i], p[j]);
    }
    assert Joins(keys, edges + [e], p, a, b);
  }

  // --- the forest behind the parents array ------------------------------------------------

  /** `root` is where each climb ends; `rank` strictly increases along every climb. */
  datatype Forest = Forest(root: seq<nat>, rank: seq<nat>, bound: nat)

  ghost predicate RootedAt(parents: seq<nat>, f: Forest, i: nat) {
    && i < |parents| == |f.root| == |f.rank|
    && parents[i] < |parents| && f.root[i] < |parents|
    && parents[f.root[i]] == f.root[i] && f.root[parents[i]] == f.root[i]
    && (if parents[i] == i then f.root[i] == i else f.rank[i] < f.rank[parents[i]])
    && f.rank[i] <= f.bound
  }

  ghost predicate Rooted(parents: seq<nat>, f: Forest) {
    && |parents| == |f.root| == |f.rank|
    && forall i: nat :: i < |parents| ==> RootedAt(parents, f, i)
  }

  function Climb(parents: seq<nat>, i: nat, steps: nat): nat
    decreases steps
  {
    if steps == 0 then i
    else if i < |parents| then Climb(parents, parents[i], steps - 1)
    else i
  }

  ghost predicate EndsOnlyAt(parents: seq<nat>, i: nat, root: nat) {
    i < |parents| && (parents[i] == i ==> i == root)
  }

  /** The forest is not a free choice: from any index, climbing parents ends at its root and nowhere else. */
  lemma {:induction false} ClimbEndsAtRoot(parents: seq<nat>, f: Forest, i: nat) returns (steps: nat)
    requires Rooted(parents, f) && i < |parents|
    ensures Climb(parents, i, steps) == f.root[i]
    ensures forall k: nat :: EndsOnlyAt(parents, Climb(parents, i, k), f.root[i])
    decreases f.bound - f.rank[i]
  {
    assert RootedAt(parents, f, i);
    if parents[i] == i {
      steps := 0;
    } else {
      assert RootedAt(parents, f, parents[i]);
      var above := ClimbEndsAtRoot(parents, f, parents[i]);
      steps := above + 1;
    }
    forall k: nat
      ensures EndsOnlyAt(parents, Climb(parents, i, k), f.root[i])
    {
      ClimbKeepsRoot(parents, f, i, k);
      assert RootedAt(parents, f, Climb(parents, i, k));
    }
  }

  lemma {:induction false} ClimbKeepsRoot(parents: seq<nat>, f: Forest, i: nat, k: nat)
    requires Rooted(parents, f) && i < |parents|
    ensures Climb(parents, i, k) < |parents| && f.root[Climb(parents, i, k)] == f.root[i]
    decreases k
  {
    assert RootedAt(parents, f, i);
    if k > 0 {
      ClimbKeepsRoot(parents, f, parents[i], k - 1);
    }
  }

  lemma HalvingKeepsRoots(parents: seq<nat>, f: Forest, i: nat)
    requires Rooted(parents, f) && i < |parents| && parents[i] != i
    ensures parents[i] < |parents| && parents[parents[i]] < |parents|
    ensures Rooted(parents[i := parents[parents[i]]], f)
    ensures f.rank[parents[parents[i]]] > f.rank[i] && f.root[parents[parents[i]]] == f.root[i]
  {
    assert RootedAt(parents, f, i) && RootedAt(parents, f, parents[i]);
    assert RootedAt(parents, f, parents[parents[i]]);
    var halved := parents[i := parents[parents[i]]];
    forall j: nat | j < |parents| ensures RootedAt(halved, f, j) {
      assert RootedAt(parents, f, j) && RootedAt(parents, f, f.root[j]);
    }
  }

  /** Find with path halving returns the root and leaves every root where it was. */
  method Find(parents: array<nat>, ghost f: Forest, start: nat) returns (index: nat)
    requires Rooted(parents[..], f) && start < parents.Length
    modifies parents
    ensures Rooted(parents[..], f)
    ensures index == f.root[start]
  {
    index := start;
    while parents[index] != index
      invariant index < parents.Length && Rooted(parents[..], f)
      invariant f.root[index] == f.root[start]
      invariant RootedAt(parents[..], f, index) && RootedAt(parents[..], f, start)
      decreases f.bound - f.rank[index]
    {
      assert RootedAt(parents[..], f, index);
      HalvingKeepsRoots(parents[..], f, index);
      ghost var was := parents[..];
      parents[index] := parents[parents[index]];
      assert parents[..] == was[index := was[was[index]]];
      index := parents[index];
    }
  }

  ghost function Hang(f: Forest, left: nat, right: nat): Forest
    requires |f.root| == |f.rank| && left < |f.rank| && right < |f.rank|
  {
    var rank := if f.rank[left] > f.rank[right] then f.rank[left] else f.rank[right] + 1;
    Forest(
      seq(|f.root|, i requires 0 <= i < |f.root| => if f.root[i] == right then left else f.root[i]),
      f.rank[left := rank],
      f.bound + 1)
  }

  lemma HangKeepsRooted(parents: seq<nat>, f: Forest, left: nat, right: nat)
    requires Rooted(parents, f) && left < |parents| && right < |parents| && left != right
    requires parents[left] == left && parents[right] == right
    ensures Rooted(parents[right := left], Hang(f, left, right))
  {
    var g, hung := Hang(f, left, right), parents[right := left];
    assert RootedAt(parents, f, left) && RootedAt(parents, f, right);
    forall i: nat | i < |hung| ensures RootedAt(hung, g, i) {
      assert RootedAt(parents, f, i) && RootedAt(parents, f, parents[i]) && RootedAt(parents, f, f.root[i]);
    }
  }

  // --- roots and connectivity ---------------------------------------------------------------

  ghost predicate Exact(keys: seq<Id>, edges: seq<Edge>, root: seq<nat>) {
    && |root| == |keys|
    && forall a, b :: 0 <= a < |keys| && 0 <= b < |keys| ==> (root[a] == root[b] <==> Connected(keys, edges, a, b))
  }

  lemma {:induction false} PathKeepsRoot(keys: seq<Id>, edges: seq<Edge>, root: seq<nat>, path: seq<nat>)
    requires |root| == |keys| && path != [] && path[0] < |keys| && IsPath(keys, edges, path)
    requires forall a: nat, b: nat :: Linked(keys, edges, a, b) ==> root[a] == root[b]
    ensures path[|path| - 1] < |keys| && root[path[0]] == root[path[|path| - 1]]
  {
    if |path| > 1 {
      assert Linked(keys, edges, path[0], path[1]);
      forall i, j | 0 <= i && j == i + 1 < |path[1..]| ensures Linked(keys, edges, path[1..][i], path[1..][j]) {
        assert Linked(keys, edges, path[i + 1], path[j + 1]);
      }
      PathKeepsRoot(keys, edges, root, path[1..]);
    }
  }

  ghost predicate EdgeAt(keys: seq<Id>, e: Edge, x: nat, y: nat) {
    Distinct(keys) && x < |keys| && y < |keys| && keys[x] == e.0 && keys[y] == e.1
  }

  /** Hanging one root under the other merges exactly the two classes the edge joins. */
  lemma MergeIsExact(keys: seq<Id>, edges: seq<Edge>, e: Edge, x: nat, y: nat, root: seq<nat>, merged: seq<nat>)
    requires EdgeAt(keys, e, x, y) && Exact(keys, edges, root)
    requires |merged| == |keys|
    requires forall i :: 0 <= i < |keys| ==> merged[i] == (if root[i] == root[y] then root[x] else root[i])
    ensures Exact(keys, edges + [e], merged)
  {
    forall a, b | 0 <= a < |keys| && 0 <= b < |keys|
      ensures merged[a] == merged[b] <==> Connected(keys, edges + [e], a, b)
    {
      if merged[a] == merged[b] {
        MergedAreConnected(keys, edges, e, x, y, root, a, b);
      }
      if Connected(keys, edges + [e], a, b) {
        var path :| Joins(keys, edges + [e], path, a, b);
        forall i: nat, j: nat | Linked(keys, edges + [e], i, j) ensures merged[i] == merged[j] {
          LinkedMerge(keys, edges, e, x, y, root, i, j);
        }
        PathKeepsRoot(keys, edges + [e], merged, path);
      }
    }
  }

  lemma LinkedMerge(keys: seq<Id>, edges: seq<Edge>, e: Edge, x: nat, y: nat, root: seq<nat>, i: nat, j: nat)
    requires EdgeAt(keys, e, x, y) && Exact(keys, edges, root) && Linked(keys, edges + [e], i, j)
    ensures root[i] == root[j] || (i == x && j == y) || (i == y && j == x)
  {
    if Linked(keys, edges, i, j) {
      ConnectedLink(keys, edges, i, j);
    }
  }

  lemma MergedAreConnected(keys: seq<Id>, edges: seq<Edge>, e: Edge, x: nat, y: nat, root: seq<nat>, a: nat, b: nat)
    requires EdgeAt(keys, e, x, y) && Exact(keys, edges, root) && a < |keys| && b < |keys|
    requires root[a] == root[b] || (root[a] == root[y] && root[b] == root[x]) || (root[a] == root[x] && root[b] == root[y])
    ensures Connected(keys, edges + [e], a, b)
  {
    if root[a] == root[b] {
      ConnectedMore(keys, edges, e, a, b);
    } else {
      var (s, t) := if root[a] == root[x] then (x, y) else (y, x);
      ConnectedMore(keys, edges, e, a, s);
      ConnectedMore(keys, edges, e, t, b);
      assert Linked(keys, edges + [e], s, t);
      ConnectedLink(keys, edges + [e], s, t);
      ConnectedTrans(keys, edges + [e], a, s, t);
      ConnectedTrans(keys, edges + [e], a, t, b);
    }
  }

  lemma NothingMergedYet(keys: seq<Id>, root: seq<nat>)
    requires |root| == |keys| && forall i :: 0 <= i < |root| ==> root[i] == i
    ensures Exact(keys, [], root)
  {
    forall a, b | 0 <= a < |keys| && 0 <= b < |keys| ensures root[a] == root[b] <==> Connected(keys, [], a, b) {
      ConnectedSelf(keys, [], a);
      if Connected(keys, [], a, b) {
        var path :| Joins(keys, [], path, a, b);
        PathKeepsRoot(keys, [], root, path);
      }
    }
  }

  // --- grouping and order -------------------------------------------------------------------

  /** The indices below `n` whose root is `r`, ascending. */
  function Members(root: seq<nat>, r: nat, n: nat): (m: seq<nat>)
    requires n <= |root|
    ensures forall i: nat :: i in m <==> i < n && root[i] == r
    ensures Distinct(m)
  {
    if n == 0 then [] else Members(root, r, n - 1) + (if root[n - 1] == r then [n - 1] else [])
  }

  function KeyAt(keys: seq<Id>, i: nat): Id {
    if i < |keys| then keys[i] else 0
  }

  function ByKey(keys: seq<Id>): (nat, nat) -> bool {
    (a: nat, b: nat) => KeyAt(keys, a) < KeyAt(keys, b)
  }

  function KeysOf(keys: seq<Id>, group: seq<nat>): seq<Id> {
    seq(|group|, i requires 0 <= i < |group| => KeyAt(keys, group[i]))
  }

  predicate LexLess(a: seq<int>, b: seq<int>) {
    b != [] && (a == [] || a[0] < b[0] || (a[0] == b[0] && LexLess(a[1..], b[1..])))
  }

  lemma {:induction false} LexTransitive(a: seq<int>, b: seq<int>, c: seq<int>)
    ensures !LexLess(a, a)
    ensures LexLess(a, b) && LexLess(b, c) ==> LexLess(a, c)
    ensures LexLess(a, c) ==> LexLess(a, b) || LexLess(b, c)
    decreases |a| + |b| + |c|
  {
    if a != [] {
      LexTransitive(a[1..], if b == [] then b else b[1..], if c == [] then c else c[1..]);
    }
  }

  /** Larger groups first, then by their lists of source keys. */
  function GroupBefore(keys: seq<Id>): (seq<nat>, seq<nat>) -> bool {
    (g: seq<nat>, h: seq<nat>) => |g| > |h| || (|g| == |h| && LexLess(KeysOf(keys, g), KeysOf(keys, h)))
  }

  lemma GroupBeforeIsStrictWeak(keys: seq<Id>)
    ensures StrictWeak(GroupBefore(keys)) && StrictWeak(ByKey(keys))
  {
    var before := GroupBefore(keys);
    forall x, y, z
      ensures !before(x, x)
      ensures before(x, y) && before(y, z) ==> before(x, z)
      ensures before(x, z) ==> before(x, y) || before(y, z)
    {
      LexTransitive(KeysOf(keys, x), KeysOf(keys, y), KeysOf(keys, z));
    }
  }

  ghost predicate InSomeGroup(groups: seq<seq<nat>>, i: nat) {
    exists g :: 0 <= g < |groups| && i in groups[g]
  }

  /** One group per class: no group is empty, and every index is in the group of its root only. */
  ghost predicate GroupsOf(keys: seq<Id>, root: seq<nat>, groups: seq<seq<nat>>) {
    && |root| == |keys|
    && (forall g :: 0 <= g < |groups| ==> groups[g] != [] && Distinct(groups[g]) && InOrder(groups[g], ByKey(keys)))
    && (forall g, i :: 0 <= g < |groups| && i in groups[g] ==> i < |keys|)
    && (forall i: nat :: i < |keys| ==> InSomeGroup(groups, i))
    && (forall g, h, i, j :: 0 <= g < |groups| && 0 <= h < |groups| && i in groups[g] && j in groups[h] ==>
          (g == h <==> root[i] == root[j]))
  }

  /** The component groups: a partition of the sources in which sharing a group is being connected. */
  ghost predicate ComponentsOf(keys: seq<Id>, edges: seq<Edge>, groups: seq<seq<nat>>) {
    && (forall g :: 0 <= g < |groups| ==> groups[g] != [] && Distinct(groups[g]) && InOrder(groups[g], ByKey(keys)))
    && (forall g, i :: 0 <= g < |groups| && i in groups[g] ==> i < |keys|)
    && (forall i: nat :: i < |keys| ==> InSomeGroup(groups, i))
    && (forall g, h, i, j :: 0 <= g < |groups| && 0 <= h < |groups| && i in groups[g] && j in groups[h] ==>
          (g == h <==> Connected(keys, edges, i, j)))
  }

  /** One turn of the union loop. */
  method Union(parents: array<nat>, ghost f: Forest, keys: seq<Id>, ghost edges: seq<Edge>, ghost e: Edge, x: nat, y: nat)
    returns (ghost g: Forest)
    requires parents.Length == |keys| && EdgeAt(keys, e, x, y)
    requires Rooted(parents[..], f) && Exact(keys, edges, f.root)
    modifies parents
    ensures Rooted(parents[..], g) && Exact(keys, edges + [e], g.root)
  {
    var left := Find(parents, f, x);
    var right := Find(parents, f, y);
    assert RootedAt(parents[..], f, x) && RootedAt(parents[..], f, y);
    if left != right {
      HangKeepsRooted(parents[..], f, left, right);
      g := Hang(f, left, right);
      ghost var was := parents[..];
      parents[right] := left;
      assert parents[..] == was[right := left];
    } else {
      g := f;
    }
    MergeIsExact(keys, edges, e, x, y, f.root, g.root);
  }

  method UnionEdges(keys: seq<Id>, edges: seq<Edge>) returns (parents: array<nat>, ghost f: Forest)
    requires Distinct(keys)
    requires forall e :: e in edges ==> e.0 in keys && e.1 in keys
    ensures fresh(parents) && parents.Length == |keys|
    ensures Rooted(parents[..], f) && Exact(keys, edges, f.root)
  {
    var positions := map i | 0 <= i < |keys| :: keys[i] := i;
    parents := new nat[|keys|](i => i);
    f := Forest(parents[..], seq(|keys|, i => 0), 0);
    assert forall i: nat :: i < |keys| ==> RootedAt(parents[..], f, i);
    NothingMergedYet(keys, f.root);
    for k := 0 to |edges|
      invariant Rooted(parents[..], f) && Exact(keys, edges[..k], f.root)
    {
      assert edges[k] in edges;
      f := Union(parents, f, keys, edges[..k], edges[k], positions[edges[k].0], positions[edges[k].1]);
      assert edges[..k + 1] == edges[..k] + [edges[k]];
    }
    assert edges[..|edges|] == edges;
  }

  /** `grouped` maps every root met so far to its members, in index order. */
  ghost predicate GroupedBelow(root: seq<nat>, n: nat, grouped: map<nat, seq<nat>>) {
    && n <= |root|
    && forall r: nat :: if r in grouped then grouped[r] == Members(root, r, n) != [] else Members(root, r, n) == []
  }

  function Grown(grouped: map<nat, seq<nat>>, r: nat, i: nat): map<nat, seq<nat>> {
    grouped[r := (if r in grouped then grouped[r] else []) + [i]]
  }

  lemma GroupOneMore(root: seq<nat>, i: nat, grouped: map<nat, seq<nat>>)
    requires i < |root| && GroupedBelow(root, i, grouped)
    ensures GroupedBelow(root, i + 1, Grown(grouped, root[i], i))
  {
    var more := Grown(grouped, root[i], i);
    forall q: nat ensures if q in more then more[q] == Members(root, q, i + 1) != [] else Members(root, q, i + 1) == [] {
      assert if q in grouped then grouped[q] == Members(root, q, i) != [] else Members(root, q, i) == [];
    }
  }

  /** `find` once more for every source: the groups read off the compressed array. */
  method GroupByRoot(parents: array<nat>, ghost f: Forest) returns (grouped: map<nat, seq<nat>>)
    requires Rooted(parents[..], f)
    modifies parents
    ensures GroupedBelow(f.root, parents.Length, grouped)
  {
    grouped := map[];
    for i := 0 to parents.Length
      invariant Rooted(parents[..], f) && GroupedBelow(f.root, i, grouped)
    {
      grouped := FindAndGroup(parents, f, i, grouped);
    }
  }

  method FindAndGroup(parents: array<nat>, ghost f: Forest, i: nat, grouped: map<nat, seq<nat>>) returns (more: map<nat, seq<nat>>)
    requires Rooted(parents[..], f) && i < parents.Length && GroupedBelow(f.root, i, grouped)
    modifies parents
    ensures Rooted(parents[..], f) && GroupedBelow(f.root, i + 1, more)
  {
    GroupOneMore(f.root, i, grouped);
    var r := Find(parents, f, i);
    more := Grown(grouped, r, i);
  }

  method SortedGroups(keys: seq<Id>, ghost root: seq<nat>, grouped: map<nat, seq<nat>>) returns (groups: seq<seq<nat>>)
    requires |root| == |keys| && GroupedBelow(root, |keys|, grouped)
    requires forall i :: 0 <= i < |root| ==> root[i] < |keys|
    ensures GroupsOf(keys, root, groups)
  {
    groups := [];
    ghost var roots: seq<nat> := [];
    for r := 0 to |keys|
      invariant |roots| == |groups| && (forall g :: 0 <= g < |roots| ==> roots[g] < r) && Distinct(roots)
      invariant forall g :: 0 <= g < |roots| ==> roots[g] in grouped && groups[g] == SortBy(grouped[roots[g]], ByKey(keys))
      invariant forall q: nat :: q < r && q in grouped ==> q in roots
    {
      if r in grouped {
        groups := groups + [SortBy(grouped[r], ByKey(keys))];
        roots := roots + [r];
      }
    }
    SortedMembersAreGroups(keys, root, grouped, roots, groups);
  }

  lemma SortedMembersAreGroups(keys: seq<Id>, root: seq<nat>, grouped: map<nat, seq<nat>>, roots: seq<nat>, groups: seq<seq<nat>>)
    requires |root| == |keys| && GroupedBelow(root, |keys|, grouped) && |roots| == |groups| && Distinct(roots)
    requires forall i :: 0 <= i < |root| ==> root[i] < |keys|
    requires forall g :: 0 <= g < |roots| ==> roots[g] in grouped && groups[g] == SortBy(grouped[roots[g]], ByKey(keys))
    requires forall q: nat :: q < |keys| && q in grouped ==> q in roots
    ensures GroupsOf(keys, root, groups)
  {
    GroupBeforeIsStrictWeak(keys);
    forall g | 0 <= g < |groups|
      ensures groups[g] != [] && Distinct(groups[g]) && InOrder(groups[g], ByKey(keys))
      ensures forall i: nat :: i in groups[g] <==> i < |keys| && root[i] == roots[g]
    {
      assert grouped[roots[g]] == Members(root, roots[g], |keys|);
      SortDistinct(grouped[roots[g]], ByKey(keys));
      SortKeeps(grouped[roots[g]], ByKey(keys));
    }
    forall i: nat | i < |keys| ensures InSomeGroup(groups, i) {
      assert i in Members(root, root[i], |keys|);
      assert root[i] in grouped;
      var g :| 0 <= g < |roots| && roots[g] == root[i];
      assert i in groups[g];
    }
  }

  lemma ReorderedGroups(keys: seq<Id>, root: seq<nat>, groups: seq<seq<nat>>, sorted: seq<seq<nat>>)
    requires GroupsOf(keys, root, groups)
    requires Distinct(sorted) && forall g :: g in sorted <==> g in groups
    ensures GroupsOf(keys, root, sorted)
  {
    forall i: nat | i < |keys| ensures InSomeGroup(sorted, i) {
      assert InSomeGroup(groups, i);
      var g :| 0 <= g < |groups| && i in groups[g];
      assert groups[g] in sorted;
    }
    forall g | 0 <= g < |sorted| ensures exists k :: 0 <= k < |groups| && groups[k] == sorted[g] {
      assert sorted[g] in groups;
    }
  }

  lemma SharedGroup(keys: seq<Id>, root: seq<nat>, groups: seq<seq<nat>>, g: nat, h: nat, i: nat, j: nat)
    requires GroupsOf(keys, root, groups) && g < |groups| && h < |groups| && i in groups[g] && j in groups[h]
    ensures i < |root| && j < |root| && (g == h <==> root[i] == root[j])
  {
  }

  lemma GroupsAreDistinct(keys: seq<Id>, root: seq<nat>, groups: seq<seq<nat>>)
    requires GroupsOf(keys, root, groups)
    ensures Distinct(groups)
  {
    forall g, h | 0 <= g < |groups| && 0 <= h < |groups| && groups[g] == groups[h] ensures g == h {
      var x := groups[g][0];
      SharedGroup(keys, root, groups, g, h, x, groups[h][0]);
    }
  }

  // --- the order of the groups, told from the keys --------------------------------------------------

  /** The keys of `g` are less than those of `h` where they first differ, at position `k`. */
  ghost predicate FirstDiffers(keys: seq<Id>, g: seq<nat>, h: seq<nat>, k: nat) {
    && k < |g| && k < |h| && g[k] < |keys| && h[k] < |keys| && keys[g[k]] < keys[h[k]]
    && forall i :: 0 <= i < k ==> g[i] < |keys| && h[i] < |keys| && keys[g[i]] == keys[h[i]]
  }

  /** Larger groups first, then the lesser list of keys; within a group the lesser keys first. */
  ghost predicate GroupsListed(keys: seq<Id>, groups: seq<seq<nat>>) {
    && (forall g, h :: 0 <= g < h < |groups| ==>
          |groups[g]| > |groups[h]| || (|groups[g]| == |groups[h]| && exists k: nat :: FirstDiffers(keys, groups[g], groups[h], k)))
    && (forall g, i, j :: 0 <= g < |groups| && 0 <= i < j < |groups[g]| ==>
          groups[g][i] < |keys| && groups[g][j] < |keys| && keys[groups[g][i]] < keys[groups[g][j]])
  }

  lemma {:induction false} LexDiffers(a: seq<int>, b: seq<int>) returns (k: nat)
    requires |a| == |b| && a != b && !LexLess(b, a)
    ensures k < |a| && a[k] < b[k] && forall i :: 0 <= i < k ==> a[i] == b[i]
    decreases |a|
  {
    if a[0] == b[0] {
      assert a == [a[0]] + a[1..] && b == [b[0]] + b[1..];
      k := LexDiffers(a[1..], b[1..]);
      k := k + 1;
      forall i | 0 <= i < k ensures a[i] == b[i] {
        assert i > 0 ==> a[1..][i - 1] == b[1..][i - 1];
      }
    } else {
      k := 0;
    }
  }

  lemma SameKeysSameGroup(keys: seq<Id>, root: seq<nat>, groups: seq<seq<nat>>, g: nat, h: nat)
    requires Distinct(keys) && GroupsOf(keys, root, groups) && g < |groups| && h < |groups|
    requires KeysOf(keys, groups[g]) == KeysOf(keys, groups[h])
    ensures g == h
  {
    var x, y := groups[g][0], groups[h][0];
    assert KeysOf(keys, groups[g])[0] == KeysOf(keys, groups[h])[0];
    assert x in groups[g] && y in groups[h];
    SharedGroup(keys, root, groups, g, h, x, y);
  }

  lemma GroupsAreListed(keys: seq<Id>, root: seq<nat>, groups: seq<seq<nat>>)
    requires Distinct(keys) && GroupsOf(keys, root, groups) && InOrder(groups, GroupBefore(keys))
    ensures GroupsListed(keys, groups)
  {
    forall g, i | 0 <= g < |groups| && 0 <= i < |groups[g]| ensures groups[g][i] < |keys| {
      assert groups[g][i] in groups[g];
    }
    forall g, h | 0 <= g < h < |groups|
      ensures |groups[g]| > |groups[h]| || (|groups[g]| == |groups[h]| && exists k: nat :: FirstDiffers(keys, groups[g], groups[h], k))
    {
      assert !GroupBefore(keys)(groups[h], groups[g]);
      if |groups[g]| == |groups[h]| {
        var a, b := KeysOf(keys, groups[g]), KeysOf(keys, groups[h]);
        if a == b {
          SameKeysSameGroup(keys, root, groups, g, h);
        }
        var k := LexDiffers(a, b);
        forall i | 0 <= i < k ensures keys[groups[g][i]] == keys[groups[h][i]] {
          assert a[i] == b[i];
        }
        assert FirstDiffers(keys, groups[g], groups[h], k);
      }
    }
    forall g, i, j | 0 <= g < |groups| && 0 <= i < j < |groups[g]| ensures keys[groups[g][i]] < keys[groups[g][j]] {
      assert !ByKey(keys)(groups[g][j], groups[g][i]);
    }
  }

  lemma GroupsAreComponents(keys: seq<Id>, edges: seq<Edge>, root: seq<nat>, groups: seq<seq<nat>>)
    requires GroupsOf(keys, root, groups) && Exact(keys, edges, root)
    ensures ComponentsOf(keys, edges, groups)
  {
  }

  method ConnectedComponents(keys: seq<Id>, edges: seq<Edge>) returns (groups: seq<seq<nat>>)
    requires Distinct(keys)
    requires forall e :: e in edges ==> e.0 in keys && e.1 in keys
    ensures ComponentsOf(keys, edges, groups)
    ensures GroupsListed(keys, groups)
  {
    var parents, f := UnionEdges(keys, edges);
    forall i: nat | i < |keys| ensures f.root[i] < |keys| {
      assert RootedAt(parents[..], f, i);
    }
    var grouped := GroupByRoot(parents, f);
    var unsorted := SortedGroups(keys, f.root, grouped);
    groups := SortBy(unsorted, GroupBefore(keys));
    GroupBeforeIsStrictWeak(keys);
    GroupsAreDistinct(keys, f.root, unsorted);
    SortDistinct(unsorted, GroupBefore(keys));
    SortKeeps(unsorted, GroupBefore(keys));
    ReorderedGroups(keys, f.root, unsorted, groups);
    GroupsAreListed(keys, f.root, groups);
    GroupsAreComponents(keys, edges, f.root, groups);
  }
}

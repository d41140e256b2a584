/** hw4.py: hierarchical agglomerative clustering with complete linkage. */
module Hac {
  import opened Wrappers

  type Dist = (nat, nat) -> real
  type Matrix = seq<seq<real>>

  /** A row of the linkage matrix: the two clusters merged, their distance, the size of the new cluster. */
  datatype Merge = Merge(a: nat, b: nat, height: real, size: nat)

  /** A row of the cluster matrix. */
  datatype Cluster = Cluster(id: nat, size: nat)

  ghost predicate Symmetric(dist: Dist) {
    forall p: nat, q: nat :: dist(p, q) == dist(q, p)
  }

  ghost predicate Square(d: Matrix) {
    forall r :: 0 <= r < |d| ==> |d[r]| == |d|
  }

  ghost predicate Mirrored(d: Matrix)
    requires Square(d)
  {
    forall r, s :: 0 <= r < |d| && 0 <= s < |d| ==> d[r][s] == d[s][r]
  }

  // ---------------------------------------------------------------- what the rows mean

  /** The points of cluster `id`: a point itself, or what row `id - n` merged. */
  ghost function Members(n: nat, z: seq<Merge>, id: nat): set<nat>
    decreases id
  {
    if id < n then {id}
    else if id - n < |z| && z[id - n].a < id && z[id - n].b < id then
      Members(n, z, z[id - n].a) + Members(n, z, z[id - n].b)
    else {}
  }

  ghost predicate Used(z: seq<Merge>, k: nat, id: nat) {
    exists t :: 0 <= t < k && t < |z| && (z[t].a == id || z[t].b == id)
  }

  /** Cluster `id` exists before merge `k`: made by then, and not merged away. */
  ghost predicate Live(n: nat, z: seq<Merge>, k: nat, id: nat) {
    id < n + k && !Used(z, k, id)
  }

  /** Complete linkage: the largest distance between a point of one and a point of the other. */
  ghost predicate Farthest(dist: Dist, a: set<nat>, b: set<nat>, v: real) {
    && (forall p, q :: p in a && q in b ==> dist(p, q) <= v)
    && (exists p, q :: p in a && q in b && dist(p, q) == v)
  }

  /** Merge `k` joins two live clusters that are closest under complete linkage, and says how far apart they are
      and how many points the new cluster has. */
  ghost predicate GoodMerge(n: nat, dist: Dist, z: seq<Merge>, k: nat)
    requires k < |z|
  {
    && z[k].a < z[k].b
    && Live(n, z, k, z[k].a) && Live(n, z, k, z[k].b)
    && Farthest(dist, Members(n, z, z[k].a), Members(n, z, z[k].b), z[k].height)
    && z[k].size == |Members(n, z, n + k)|
    && (forall x: nat, y: nat, v: real ::
          (x != y && Live(n, z, k, x) && Live(n, z, k, y) && Farthest(dist, Members(n, z, x), Members(n, z, y), v))
            ==> z[k].height <= v)
    && (k > 0 ==> z[k - 1].height <= z[k].height)
  }

  /** Point `p` is in cluster `id`, which is live before merge `k`. */
  ghost predicate Holds(n: nat, z: seq<Merge>, k: nat, id: nat, p: nat) {
    Live(n, z, k, id) && p in Members(n, z, id)
  }

  ghost predicate Covered(n: nat, z: seq<Merge>, k: nat, p: nat) {
    exists id: nat :: Holds(n, z, k, id, p)
  }

  /** Before merge `k` the live clusters partition the points. */
  ghost predicate Partition(n: nat, z: seq<Merge>, k: nat) {
    && (forall p: nat :: Covered(n, z, k, p) <==> p < n)
    && (forall x: nat, y: nat, p: nat :: Holds(n, z, k, x, p) && Holds(n, z, k, y, p) ==> x == y)
  }

  ghost predicate Dendrogram(n: nat, dist: Dist, z: seq<Merge>) {
    && (forall k :: 0 <= k < |z| ==> GoodMerge(n, dist, z, k))
    && (forall k :: 0 <= k <= |z| ==> Partition(n, z, k))
  }

  /** No cluster is merged twice. */
  lemma {:induction false} MergedOnce(n: nat, dist: Dist, z: seq<Merge>, s: nat, t: nat)
    requires Dendrogram(n, dist, z) && s < t < |z|
    ensures z[s].a != z[t].a && z[s].a != z[t].b && z[s].b != z[t].a && z[s].b != z[t].b
  {
    assert GoodMerge(n, dist, z, t);
    assert !Used(z, t, z[t].a) && !Used(z, t, z[t].b);
  }

  lemma {:induction false} HeightsRise(n: nat, dist: Dist, z: seq<Merge>, s: nat, t: nat)
    requires Dendrogram(n, dist, z) && s <= t < |z|
    ensures z[s].height <= z[t].height
    decreases t - s
  {
    if s < t {
      assert GoodMerge(n, dist, z, t);
      HeightsRise(n, dist, z, s, t - 1);
    }
  }

  // ---------------------------------------------------------------- prefixes

  lemma {:induction false} MembersOfPrefix(n: nat, z: seq<Merge>, more: seq<Merge>, id: nat)
    requires id < n + |z|
    ensures Members(n, z + more, id) == Members(n, z, id)
    decreases id
  {
    if id >= n {
      var m := z[id - n];
      assert (z + more)[id - n] == m;
      if m.a < id && m.b < id {
        MembersOfPrefix(n, z, more, m.a);
        MembersOfPrefix(n, z, more, m.b);
      }
    }
  }

  lemma {:induction false} LiveInPrefix(n: nat, z: seq<Merge>, more: seq<Merge>, k: nat, id: nat)
    requires k <= |z|
    ensures Live(n, z + more, k, id) <==> Live(n, z, k, id)
  {
    assert forall t :: 0 <= t < k ==> (z + more)[t] == z[t];
    if Used(z, k, id) {
      var t :| 0 <= t < k && t < |z| && (z[t].a == id || z[t].b == id);
      assert (z + more)[t] == z[t];
    }
  }

  lemma {:induction false} GoodInPrefix(n: nat, dist: Dist, z: seq<Merge>, more: seq<Merge>, k: nat)
    requires k < |z| && GoodMerge(n, dist, z, k)
    ensures GoodMerge(n, dist, z + more, k)
  {
    var zz := z + more;
    forall id: nat
      ensures Live(n, zz, k, id) <==> Live(n, z, k, id)
      ensures Live(n, z, k, id) ==> Members(n, zz, id) == Members(n, z, id)
    {
      LiveInPrefix(n, z, more, k, id);
      if id < n + |z| {
        MembersOfPrefix(n, z, more, id);
      }
    }
    MembersOfPrefix(n, z, more, n + k);
    hide Members, Live, Farthest;
  }

  lemma {:induction false} PartitionInPrefix(n: nat, z: seq<Merge>, more: seq<Merge>, k: nat)
    requires k <= |z| && Partition(n, z, k)
    ensures Partition(n, z + more, k)
  {
    var zz := z + more;
    forall id: nat, p: nat
      ensures Holds(n, zz, k, id, p) <==> Holds(n, z, k, id, p)
    {
      LiveInPrefix(n, z, more, k, id);
      if id < n + |z| {
        MembersOfPrefix(n, z, more, id);
      }
    }
    hide Holds;
    forall p: nat
      ensures Covered(n, zz, k, p) <==> Covered(n, z, k, p)
    {
      if Covered(n, z, k, p) {
        var id: nat :| Holds(n, z, k, id, p);
        assert Holds(n, zz, k, id, p);
      }
    }
  }

  // ---------------------------------------------------------------- linkage

  lemma {:induction false} FarthestIsUnique(dist: Dist, a: set<nat>, b: set<nat>, u: real, v: real)
    requires Farthest(dist, a, b, u) && Farthest(dist, a, b, v)
    ensures u == v
  {
    var p, q :| p in a && q in b && dist(p, q) == u;
    var p', q' :| p' in a && q' in b && dist(p', q') == v;
    assert dist(p, q) <= v && dist(p', q') <= u;
  }

  lemma {:induction false} FarthestMirrored(dist: Dist, a: set<nat>, b: set<nat>, v: real)
    requires Symmetric(dist) && Farthest(dist, a, b, v)
    ensures Farthest(dist, b, a, v)
  {
    var p, q :| p in a && q in b && dist(p, q) == v;
    assert dist(q, p) == v;
  }

  function Max(u: real, v: real): real {
    if u >= v then u else v
  }

  /** The maximum of two linkages is the linkage of the union. */
  lemma {:induction false} FarthestOfUnion(dist: Dist, a: set<nat>, b: set<nat>, c: set<nat>, u: real, v: real)
    requires Farthest(dist, a, c, u) && Farthest(dist, b, c, v)
    ensures Farthest(dist, a + b, c, Max(u, v))
  {
    var p, q :| p in a && q in c && dist(p, q) == u;
    var p', q' :| p' in b && q' in c && dist(p', q') == v;
    assert p in a + b && p' in a + b;
  }

  // ---------------------------------------------------------------- the state between merges

  /** The clusters named in the cluster matrix are the live ones, with their sizes, and the distance matrix
      holds their complete linkage, none of it below the last height. */
  ghost predicate State(n: nat, dist: Dist, z: seq<Merge>, c: seq<Cluster>, d: Matrix) {
    var k := |z|;
    && k < n && |c| == |d| == n - k && Square(d) && Mirrored(d)
    && (forall r :: 0 <= r < |c| ==> Live(n, z, k, c[r].id) && c[r].size == |Members(n, z, c[r].id)|)
    && (forall r, s :: 0 <= r < s < |c| ==> c[r].id != c[s].id)
    && (forall id: nat :: Live(n, z, k, id) ==> Listed(c, id))
    && (forall r, s :: 0 <= r < |c| && 0 <= s < |c| && r != s ==>
          Farthest(dist, Members(n, z, c[r].id), Members(n, z, c[s].id), d[r][s]))
    && (k > 0 ==> forall r, s :: 0 <= r < |c| && 0 <= s < |c| && r != s ==> z[k - 1].height <= d[r][s])
    && Dendrogram(n, dist, z)
  }

  ghost predicate Listed(c: seq<Cluster>, id: nat) {
    exists r :: 0 <= r < |c| && c[r].id == id
  }

  /** The row behind row `r` of a matrix without row `j`. */
  function Skip(j: nat, r: nat): nat {
    if r < j then r else r + 1
  }

  /** Row `j` is joined to row `i`: entries are the maxima, then row and column `j` go. */
  ghost predicate Joined(d: Matrix, i: nat, j: nat, d': Matrix)
    requires Square(d) && i < j < |d|
  {
    && |d'| == |d| - 1 && Square(d')
    && forall r: nat, s: nat :: r < |d'| && s < |d'| && r != s ==>
         d'[r][s] == if r == i then Max(d[i][Skip(j, s)], d[j][Skip(j, s)])
                     else if s == i then Max(d[i][Skip(j, r)], d[j][Skip(j, r)])
                     else d[Skip(j, r)][Skip(j, s)]
  }

  function Row(c: seq<Cluster>, i: nat, j: nat, height: real): Merge
    requires i < |c| && j < |c|
  {
    var a, b := c[i].id, c[j].id;
    Merge(if a < b then a else b, if a < b then b else a, height, c[i].size + c[j].size)
  }

  lemma {:induction false} LiveAfter(n: nat, z: seq<Merge>, m: Merge, id: nat)
    ensures Live(n, z + [m], |z| + 1, id) <==>
      (id == n + |z| && !Used(z, |z|, id) && m.a != id && m.b != id) || (Live(n, z, |z|, id) && id != m.a && id != m.b)
  {
    var zz := z + [m];
    if Used(z, |z|, id) {
      var t :| 0 <= t < |z| && (z[t].a == id || z[t].b == id);
      assert zz[t] == z[t];
    }
    assert zz[|z|] == m;
    assert forall t :: 0 <= t < |z| ==> zz[t] == z[t];
  }

  lemma {:induction false} NewIdUnused(n: nat, dist: Dist, z: seq<Merge>, id: nat)
    requires Dendrogram(n, dist, z) && id >= n + |z|
    ensures !Used(z, |z|, id)
  {
    forall t | 0 <= t < |z|
      ensures z[t].a < id && z[t].b < id
    {
      assert GoodMerge(n, dist, z, t);
    }
  }

  /** The merged clusters are disjoint, so the sizes add up. */
  lemma {:induction false} NewMembers(n: nat, dist: Dist, z: seq<Merge>, c: seq<Cluster>, d: Matrix, i: nat, j: nat,
                                      m: Merge)
    requires State(n, dist, z, c, d) && i < j < |c| && m == Row(c, i, j, d[i][j])
    ensures Members(n, z + [m], n + |z|) == Members(n, z, c[i].id) + Members(n, z, c[j].id)
    ensures |Members(n, z + [m], n + |z|)| == m.size
  {
    var k, zz := |z|, z + [m];
    assert Live(n, z, k, c[i].id) && Live(n, z, k, c[j].id);
    assert zz[k] == m && m.a < n + k && m.b < n + k;
    MembersOfPrefix(n, z, [m], c[i].id);
    MembersOfPrefix(n, z, [m], c[j].id);
    var a, b := Members(n, z, c[i].id), Members(n, z, c[j].id);
    assert Partition(n, z, k);
    forall p: nat
      ensures !(Holds(n, z, k, c[i].id, p) && Holds(n, z, k, c[j].id, p))
    {
    }
    assert a !! b by {
      assert forall p: nat :: p in a ==> Holds(n, z, k, c[i].id, p);
      assert forall p: nat :: p in b ==> Holds(n, z, k, c[j].id, p);
    }
    assert Members(n, zz, n + k) == Members(n, zz, m.a) + Members(n, zz, m.b);
    assert |a + b| == |a| + |b|;
  }

  /** The closest pair of the matrix is a closest pair of live clusters. */
  lemma {:induction false} ClosestPair(n: nat, dist: Dist, z: seq<Merge>, c: seq<Cluster>, d: Matrix, low: real,
                                       x: nat, y: nat, v: real)
    requires State(n, dist, z, c, d)
    requires forall r, s :: 0 <= r < |d| && 0 <= s < |d| && r != s ==> low <= d[r][s]
    requires x != y && Live(n, z, |z|, x) && Live(n, z, |z|, y) && Farthest(dist, Members(n, z, x), Members(n, z, y), v)
    ensures low <= v
  {
    hide Members, Dendrogram, Live, Farthest;
    assert Listed(c, x) && Listed(c, y);
    var r :| 0 <= r < |c| && c[r].id == x;
    var s :| 0 <= s < |c| && c[s].id == y;
    FarthestIsUnique(dist, Members(n, z, x), Members(n, z, y), v, d[r][s]);
  }

  lemma {:induction false} LinkageOf(n: nat, dist: Dist, z: seq<Merge>, c: seq<Cluster>, d: Matrix, i: nat, j: nat)
    requires Symmetric(dist) && State(n, dist, z, c, d) && i < |c| && j < |c| && i != j
    ensures Live(n, z, |z|, c[i].id) && Live(n, z, |z|, c[j].id) && c[i].id != c[j].id
    ensures Farthest(dist, Members(n, z, c[i].id), Members(n, z, c[j].id), d[i][j])
    ensures Farthest(dist, Members(n, z, c[j].id), Members(n, z, c[i].id), d[i][j])
    ensures |z| > 0 ==> z[|z| - 1].height <= d[i][j]
  {
    hide Members, Dendrogram, Live, Farthest;
    FarthestMirrored(dist, Members(n, z, c[i].id), Members(n, z, c[j].id), d[i][j]);
  }

  lemma {:induction false} MergeIsGood(n: nat, dist: Dist, z: seq<Merge>, c: seq<Cluster>, d: Matrix, i: nat, j: nat,
                                       m: Merge)
    requires Symmetric(dist) && State(n, dist, z, c, d) && i < j < |c| && m == Row(c, i, j, d[i][j])
    requires forall r, s :: 0 <= r < |d| && 0 <= s < |d| && r != s ==> d[i][j] <= d[r][s]
    ensures GoodMerge(n, dist, z + [m], |z|)
  {
    hide Members, Dendrogram, State, Farthest;
    var k, zz := |z|, z + [m];
    NewMembers(n, dist, z, c, d, i, j, m);
    LinkageOf(n, dist, z, c, d, i, j);
    forall id: nat
      ensures Live(n, zz, k, id) <==> Live(n, z, k, id)
      ensures Live(n, z, k, id) ==> Members(n, zz, id) == Members(n, z, id)
    {
      LiveInPrefix(n, z, [m], k, id);
      if id < n + k {
        MembersOfPrefix(n, z, [m], id);
      }
    }
    forall x: nat, y: nat, v: real |
      x != y && Live(n, z, k, x) && Live(n, z, k, y) && Farthest(dist, Members(n, z, x), Members(n, z, y), v)
      ensures m.height <= v
    {
      ClosestPair(n, dist, z, c, d, m.height, x, y, v);
    }
  }

  /** Rows of the new cluster matrix: row `i` is the new cluster, row `j` is gone. */
  ghost predicate Relabelled(n: nat, k: nat, c: seq<Cluster>, i: nat, j: nat, c': seq<Cluster>) {
    && i < j < |c| && |c'| == |c| - 1
    && forall r :: 0 <= r < |c'| ==>
         c'[r] == if r == i then Cluster(n + k, c[i].size + c[j].size) else c[Skip(j, r)]
  }

  /** Entry (r, s) of the new matrix is the complete linkage of the clusters of its rows. */
  lemma {:induction false} NewLinkage(n: nat, dist: Dist, z: seq<Merge>, c: seq<Cluster>, d: Matrix, i: nat, j: nat,
                                      m: Merge, c': seq<Cluster>, d': Matrix, r: nat, s: nat)
    requires Symmetric(dist) && State(n, dist, z, c, d) && i < j < |c| && m == Row(c, i, j, d[i][j])
    requires forall r, s :: 0 <= r < |d| && 0 <= s < |d| && r != s ==> d[i][j] <= d[r][s]
    requires Relabelled(n, |z|, c, i, j, c') && Joined(d, i, j, d') && r < |c'| && s < |c'| && r != s
    ensures Farthest(dist, Members(n, z + [m], c'[r].id), Members(n, z + [m], c'[s].id), d'[r][s])
    ensures m.height <= d'[r][s] && d'[r][s] == d'[s][r]
  {
    hide Members, Dendrogram, Live, Farthest;
    NewMembers(n, dist, z, c, d, i, j, m);
    var r0, s0 := Skip(j, r), Skip(j, s);
    MembersKept(n, dist, z, c, d, m, r0);
    MembersKept(n, dist, z, c, d, m, s0);
    if r == i || s == i {
      var t := if r == i then s0 else r0;
      LinkageOf(n, dist, z, c, d, i, t);
      LinkageOf(n, dist, z, c, d, j, t);
      var a, b, e := Members(n, z, c[i].id), Members(n, z, c[j].id), Members(n, z, c[t].id);
      FarthestOfUnion(dist, a, b, e, d[i][t], d[j][t]);
      FarthestMirrored(dist, a + b, e, Max(d[i][t], d[j][t]));
    } else {
      LinkageOf(n, dist, z, c, d, r0, s0);
    }
  }

  lemma MembersKept(n: nat, dist: Dist, z: seq<Merge>, c: seq<Cluster>, d: Matrix, m: Merge, r: nat)
    requires State(n, dist, z, c, d) && r < |c|
    ensures Members(n, z + [m], c[r].id) == Members(n, z, c[r].id)
  {
    assert Live(n, z, |z|, c[r].id);
    MembersOfPrefix(n, z, [m], c[r].id);
  }

  /** The live clusters after the merge are the ones listed. */
  lemma {:induction false} NewIds(n: nat, dist: Dist, z: seq<Merge>, c: seq<Cluster>, d: Matrix, i: nat, j: nat,
                                  m: Merge, c': seq<Cluster>)
    requires State(n, dist, z, c, d) && i < j < |c| && m == Row(c, i, j, d[i][j])
    requires Relabelled(n, |z|, c, i, j, c')
    ensures forall r :: 0 <= r < |c'| ==> Live(n, z + [m], |z| + 1, c'[r].id)
    ensures forall r :: 0 <= r < |c'| ==> c'[r].size == |Members(n, z + [m], c'[r].id)|
    ensures forall r, s :: 0 <= r < s < |c'| ==> c'[r].id != c'[s].id
    ensures forall id: nat :: Live(n, z + [m], |z| + 1, id) ==> Listed(c', id)
  {
    hide Members, Dendrogram, Farthest, Used;
    var k := |z|;
    NewMembers(n, dist, z, c, d, i, j, m);
    NewIdUnused(n, dist, z, n + k);
    forall r | 0 <= r < |c'|
      ensures Live(n, z + [m], k + 1, c'[r].id) && c'[r].size == |Members(n, z + [m], c'[r].id)|
    {
      LiveAfter(n, z, m, c'[r].id);
      if r != i {
        MembersKept(n, dist, z, c, d, m, Skip(j, r));
      }
    }
    forall id: nat | Live(n, z + [m], k + 1, id)
      ensures Listed(c', id)
    {
      LiveAfter(n, z, m, id);
      if id == n + k {
        assert c'[i].id == id;
      } else {
        assert Listed(c, id);
        var r :| 0 <= r < |c| && c[r].id == id;
        assert c'[if r < j then r else r - 1].id == id;
      }
    }
  }

  /** Point `p` is in the new cluster when it was in one of the two merged, else where it was. */
  lemma {:induction false} HoldsAfter(n: nat, dist: Dist, z: seq<Merge>, c: seq<Cluster>, d: Matrix, i: nat, j: nat,
                                      m: Merge, id: nat, p: nat)
    requires State(n, dist, z, c, d) && i < j < |c| && m == Row(c, i, j, d[i][j])
    ensures Holds(n, z + [m], |z| + 1, id, p) <==>
      if id == n + |z| then Holds(n, z, |z|, m.a, p) || Holds(n, z, |z|, m.b, p)
      else Holds(n, z, |z|, id, p) && id != m.a && id != m.b
    ensures m.a < n + |z| && m.b < n + |z| && (Holds(n, z, |z|, id, p) ==> id < n + |z|)
  {
    hide Members, Farthest, Used, Dendrogram;
    assert Live(n, z, |z|, c[i].id) && Live(n, z, |z|, c[j].id);
    NewMembers(n, dist, z, c, d, i, j, m);
    NewIdUnused(n, dist, z, n + |z|);
    LiveAfter(n, z, m, id);
    if id < n + |z| {
      MembersOfPrefix(n, z, [m], id);
    }
  }

  lemma {:induction false} NewPartition(n: nat, dist: Dist, z: seq<Merge>, c: seq<Cluster>, d: Matrix, i: nat, j: nat,
                                        m: Merge)
    requires State(n, dist, z, c, d) && i < j < |c| && m == Row(c, i, j, d[i][j])
    ensures Partition(n, z + [m], |z| + 1)
  {
    hide Members, Farthest, Used, Holds, Live, GoodMerge;
    var k, zz, k' := |z|, z + [m], |z| + 1;
    assert Partition(n, z, k);
    forall p: nat
      ensures Covered(n, zz, k', p) <==> Covered(n, z, k, p)
    {
      if Covered(n, z, k, p) {
        var id: nat :| Holds(n, z, k, id, p);
        HoldsAfter(n, dist, z, c, d, i, j, m, id, p);
        HoldsAfter(n, dist, z, c, d, i, j, m, n + k, p);
        assert Holds(n, zz, k', id, p) || Holds(n, zz, k', n + k, p);
      }
      if Covered(n, zz, k', p) {
        var id: nat :| Holds(n, zz, k', id, p);
        HoldsAfter(n, dist, z, c, d, i, j, m, id, p);
        assert Holds(n, z, k, id, p) || Holds(n, z, k, m.a, p) || Holds(n, z, k, m.b, p);
      }
    }
    forall x: nat, y: nat, p: nat | Holds(n, zz, k', x, p) && Holds(n, zz, k', y, p)
      ensures x == y
    {
      HoldsAfter(n, dist, z, c, d, i, j, m, x, p);
      HoldsAfter(n, dist, z, c, d, i, j, m, y, p);
    }
  }

  /** One merge keeps the state. */
  lemma {:induction false} MergeKeepsState(n: nat, dist: Dist, z: seq<Merge>, c: seq<Cluster>, d: Matrix, i: nat,
                                           j: nat, m: Merge, c': seq<Cluster>, d': Matrix)
    requires Symmetric(dist) && State(n, dist, z, c, d) && i < j < |c| && m == Row(c, i, j, d[i][j])
    requires forall r, s :: 0 <= r < |d| && 0 <= s < |d| && r != s ==> d[i][j] <= d[r][s]
    requires Relabelled(n, |z|, c, i, j, c') && Joined(d, i, j, d')
    ensures State(n, dist, z + [m], c', d')
  {
    hide Members, Farthest, Live, Partition, GoodMerge, Listed;
    var k, zz := |z|, z + [m];
    assert |zz| == k + 1 && zz[k] == m;
    NewIds(n, dist, z, c, d, i, j, m, c');
    forall r, s | 0 <= r < |c'| && 0 <= s < |c'| && r != s
      ensures Farthest(dist, Members(n, zz, c'[r].id), Members(n, zz, c'[s].id), d'[r][s])
    {
      NewLinkage(n, dist, z, c, d, i, j, m, c', d', r, s);
    }
    forall r, s | 0 <= r < |c'| && 0 <= s < |c'| && r != s
      ensures m.height <= d'[r][s]
    {
      NewLinkage(n, dist, z, c, d, i, j, m, c', d', r, s);
    }
    forall r, s | 0 <= r < |c'| && 0 <= s < |c'| && r != s
      ensures d'[r][s] == d'[s][r]
    {
      NewLinkage(n, dist, z, c, d, i, j, m, c', d', r, s);
    }
    forall t | 0 <= t < |zz|
      ensures GoodMerge(n, dist, zz, t)
    {
      if t < k {
        GoodInPrefix(n, dist, z, [m], t);
      } else {
        MergeIsGood(n, dist, z, c, d, i, j, m);
      }
    }
    forall t | 0 <= t <= |zz|
      ensures Partition(n, zz, t)
    {
      if t <= k {
        PartitionInPrefix(n, z, [m], t);
      } else {
        NewPartition(n, dist, z, c, d, i, j, m);
      }
    }
    assert Mirrored(d') && Dendrogram(n, dist, zz);
    assert forall r :: 0 <= r < |c'| ==> Live(n, zz, |zz|, c'[r].id) && c'[r].size == |Members(n, zz, c'[r].id)|;
    assert forall id: nat :: Live(n, zz, |zz|, id) ==> Listed(c', id);
    assert zz[|zz| - 1] == m;
    assert forall r, s :: 0 <= r < |c'| && 0 <= s < |c'| && r != s ==> zz[|zz| - 1].height <= d'[r][s];
  }

  // ---------------------------------------------------------------- the algorithm

  lemma {:induction false} Singletons(n: nat, dist: Dist, c: seq<Cluster>, d: Matrix)
    requires n >= 1 && Symmetric(dist) && |c| == |d| == n && Square(d) && Mirrored(d)
    requires forall r :: 0 <= r < n ==> c[r] == Cluster(r, 1)
    requires forall r: nat, s: nat :: r < n && s < n && r != s ==> d[r][s] == dist(r, s)
    ensures State(n, dist, [], c, d)
  {
    forall id: nat
      ensures Live(n, [], 0, id) <==> id < n
    {
    }
    forall id: nat | id < n
      ensures Listed(c, id) && Holds(n, [], 0, id, id) && |Members(n, [], id)| == 1
    {
      assert c[id].id == id;
    }
    forall r: nat, s: nat | r < n && s < n && r != s
      ensures Farthest(dist, Members(n, [], c[r].id), Members(n, [], c[s].id), d[r][s])
    {
      assert r in Members(n, [], r) && s in Members(n, [], s);
    }
    assert Partition(n, [], 0) by {
      forall p: nat
        ensures Covered(n, [], 0, p) <==> p < n
      {
        if p < n {
          assert Holds(n, [], 0, p, p);
        }
      }
    }
  }

  /** The pairwise distances of the points, each point a cluster. */
  method Start(n: nat, dist: Dist) returns (c: seq<Cluster>, d: Matrix)
    requires n >= 1 && Symmetric(dist)
    ensures State(n, dist, [], c, d)
  {
    hide State, Symmetric;
    d := seq(n, _ => seq(n, _ => 0.0));
    c := seq(n, _ => Cluster(0, 0));
    for i := 0 to n
      invariant |c| == |d| == n && Square(d)
      invariant forall r :: 0 <= r < i ==> c[r] == Cluster(r, 1)
      invariant forall r: nat, s: nat :: r < s < n && r < i ==> d[r][s] == dist(r, s) && d[s][r] == dist(r, s)
    {
      c := c[i := Cluster(i, 1)];
      for j := i + 1 to n
        invariant |d| == n && Square(d)
        invariant forall r: nat, s: nat :: r < s < n && (r < i || (r == i && s < j)) ==>
          d[r][s] == dist(r, s) && d[s][r] == dist(r, s)
      {
        d := Put(d, i, j, dist(i, j));
        d := Put(d, j, i, d[i][j]);
      }
    }
    forall r: nat, s: nat | r < n && s < n && r != s
      ensures d[r][s] == dist(r, s)
    {
      SymmetricAt(dist, r, s);
    }
    assert Mirrored(d) by {
      forall r, s | 0 <= r < n && 0 <= s < n
        ensures d[r][s] == d[s][r]
      {
        SymmetricAt(dist, r, s);
      }
    }
    Singletons(n, dist, c, d);
  }

  lemma SymmetricAt(dist: Dist, p: nat, q: nat)
    requires Symmetric(dist)
    ensures dist(p, q) == dist(q, p)
  {
  }

  /** The order of the scan: row by row. */
  predicate Earlier(r: nat, s: nat, i: nat, j: nat) {
    r < i || (r == i && s < j)
  }

  /** The scan for the smallest entry off the diagonal, the first one if there are several; by symmetry that is above
      the diagonal. */
  method FindMin(d: Matrix) returns (i: nat, j: nat)
    requires Square(d) && Mirrored(d) && |d| >= 2
    ensures i < j < |d|
    ensures forall r, s :: 0 <= r < |d| && 0 <= s < |d| && r != s ==> d[i][j] <= d[r][s]
    ensures forall r, s :: 0 <= r < |d| && 0 <= s < |d| && r != s && Earlier(r, s, i, j) ==> d[i][j] < d[r][s]
  {
    i, j := 0, 0;
    var low: Option<real> := None;           // the infinite starting value
    for r := 0 to |d|
      invariant low.Some? ==> i < j < |d| && low.value == d[i][j]
      invariant low.None? ==> r == 0
      invariant low.Some? ==> forall x, y :: 0 <= x < r && 0 <= y < |d| && x != y ==> low.value <= d[x][y]
      invariant forall x, y :: 0 <= x < |d| && 0 <= y < |d| && x != y && low.Some? && Earlier(x, y, i, j) ==>
        low.value < d[x][y]
    {
      for s := 0 to |d|
        invariant low.Some? ==> i < j < |d| && low.value == d[i][j]
        invariant low.None? ==> r == 0 && s <= 1
        invariant low.Some? ==> forall x, y :: 0 <= x < r && 0 <= y < |d| && x != y ==> low.value <= d[x][y]
        invariant low.Some? ==> forall y :: 0 <= y < s && y != r ==> low.value <= d[r][y]
        invariant forall x, y :: 0 <= x < |d| && 0 <= y < |d| && x != y && low.Some? && Earlier(x, y, i, j) ==>
          low.value < d[x][y]
      {
        assert d[s][r] == d[r][s];
        if r != s && (low.None? || d[r][s] < low.value) {
          i, j, low := r, s, Some(d[r][s]);
        }
      }
    }
  }

  /** `np.delete(a, j, 0)`. */
  function Without<T>(s: seq<T>, j: nat): (r: seq<T>)
    requires j < |s|
    ensures |r| == |s| - 1 && forall k :: 0 <= k < |r| ==> r[k] == s[Skip(j, k)]
  {
    s[..j] + s[j + 1..]
  }

  /** `a[x, y] = v`. */
  function Put(d: Matrix, x: nat, y: nat, v: real): (r: Matrix)
    requires Square(d) && x < |d| && y < |d|
    ensures |r| == |d| && Square(r)
    ensures forall a: nat, b: nat :: a < |d| && b < |d| ==> r[a][b] == if a == x && b == y then v else d[a][b]
  {
    d[x := d[x][y := v]]
  }

  /** Entry (x, y) when the first `m` maxima have been stored. */
  function Stored(d: Matrix, i: nat, j: nat, m: nat, x: nat, y: nat): real
    requires Square(d) && i < j < |d| && x < |d| && y < |d|
  {
    if x == i && y < m && y != j then Max(d[i][y], d[j][y])
    else if y == i && x < m && x != j then Max(d[i][x], d[j][x])
    else d[x][y]
  }

  /** The loop that puts the maxima into row and column `i`, and the deletion of row and column `j`. */
  method JoinRows(d: Matrix, i: nat, j: nat) returns (r: Matrix)
    requires Square(d) && Mirrored(d) && i < j < |d|
    ensures Joined(d, i, j, r)
  {
    hide Max, Put;
    r := d;
    for m := 0 to |d|
      invariant |r| == |d| && Square(r)
      invariant forall x: nat, y: nat :: x < |d| && y < |d| && x != y ==> r[x][y] == Stored(d, i, j, m, x, y)
    {
      ghost var before := r;
      if m == i {
        r := Put(r, m, i, 0.0);
      } else if m != j {
        r := Put(r, m, i, Max(r[i][m], r[j][m]));
        r := Put(r, i, m, r[m][i]);
      }
      forall x: nat, y: nat | x < |d| && y < |d| && x != y
        ensures r[x][y] == Stored(d, i, j, m + 1, x, y)
      {
        assert before[x][y] == Stored(d, i, j, m, x, y);
      }
    }
    var rows := Without(r, j);
    r := seq(|rows|, k requires 0 <= k < |rows| => Without(rows[k], j));
  }

  ghost function Points(n: nat): (s: set<nat>)
    ensures |s| == n && forall p :: p in s <==> 0 <= p < n
  {
    if n == 0 then {} else Points(n - 1) + {n - 1}
  }

  /** The last merge makes a cluster of all points. */
  lemma {:induction false} LastIsAll(n: nat, dist: Dist, z: seq<Merge>, c: seq<Cluster>, d: Matrix)
    requires State(n, dist, z, c, d) && n >= 2 && |z| == n - 1
    ensures z[n - 2].size == n
  {
    hide Members, Farthest;
    var k, id := n - 1, n + (n - 2);
    assert GoodMerge(n, dist, z, n - 2) && Partition(n, z, k);
    forall t | 0 <= t < |z|
      ensures z[t].a < id && z[t].b < id
    {
      assert GoodMerge(n, dist, z, t);
    }
    assert Live(n, z, k, id);
    assert Listed(c, id);
    forall p: nat
      ensures p in Members(n, z, id) <==> p in Points(n)
    {
      assert Covered(n, z, k, p) <==> p < n;
      if p < n {
        var x: nat :| Holds(n, z, k, x, p);
        assert Listed(c, x);
      } else {
        assert !Holds(n, z, k, id, p);
      }
    }
    assert Members(n, z, id) == Points(n);
  }

  /** The linkage matrix. */
  method Hac(n: nat, dist: Dist) returns (z: seq<Merge>)
    requires n >= 1 && Symmetric(dist)
    ensures |z| == n - 1 && Dendrogram(n, dist, z)
    ensures n >= 2 ==> z[n - 2].size == n
  {
    hide State, Symmetric, Dendrogram;
    var c, d := Start(n, dist);
    z := [];
    StateShape(n, dist, z, c, d);
    for k := 0 to n - 1
      invariant |z| == k && |c| == |d| == n - k && Square(d) && Mirrored(d)
      invariant State(n, dist, z, c, d)
    {
      var i, j := FindMin(d);
      var a, b := c[i].id, c[j].id;
      var c' := Without(c[i := Cluster(n + k, c[i].size + c[j].size)], j);
      var row := Merge(if a < b then a else b, if a < b then b else a, d[i][j], c'[i].size);
      var d' := JoinRows(d, i, j);
      MergeKeepsState(n, dist, z, c, d, i, j, row, c', d');
      StateShape(n, dist, z + [row], c', d');
      z, c, d := z + [row], c', d';
    }
    StateShape(n, dist, z, c, d);
    if n >= 2 {
      LastIsAll(n, dist, z, c, d);
    }
  }

  lemma StateShape(n: nat, dist: Dist, z: seq<Merge>, c: seq<Cluster>, d: Matrix)
    requires State(n, dist, z, c, d)
    ensures |c| == |d| == n - |z| && Square(d) && Mirrored(d) && Dendrogram(n, dist, z)
  {
  }
}

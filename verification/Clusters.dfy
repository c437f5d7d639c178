/**
  Co-linear bundles: signals joined by near-perfect correlation, collapsed with a union-find.

  `IsCluster` is a connected component of three or more; the class is the parent table with path
  compression.
 */
module Clusters {
  import opened Lists
  import opened Statistics
  import opened CorrelationMatrix

  // ---------- connected signals ----------

  /** As strong downwards as upwards. */
  predicate IsStrong(h: Hit, threshold: real): (strong: bool)
    ensures strong <==> h.r >= threshold || -h.r >= threshold
  {
    Abs(h.r) >= threshold
  }

  /** A strong hit joins `a` and `b`. */
  predicate Linked(hits: seq<Hit>, threshold: real, a: string, b: string) {
    exists h :: h in hits && IsStrong(h, threshold) && ((h.a == a && h.b == b) || (h.a == b && h.b == a))
  }

  predicate IsPath(hits: seq<Hit>, threshold: real, path: seq<string>) {
    path != [] && forall i :: 0 <= i < |path| - 1 ==> Linked(hits, threshold, path[i], path[i + 1])
  }

  ghost predicate Connected(hits: seq<Hit>, threshold: real, a: string, b: string) {
    exists path :: IsPath(hits, threshold, path) && path[0] == a && path[|path| - 1] == b
  }

  function Members(hits: seq<Hit>, threshold: real): (names: set<string>)
    ensures forall h :: h in hits && IsStrong(h, threshold) ==> h.a in names && h.b in names
  {
    (set h | h in hits && IsStrong(h, threshold) :: h.a) + (set h | h in hits && IsStrong(h, threshold) :: h.b)
  }

  ghost predicate IsCluster(hits: seq<Hit>, threshold: real, group: set<string>) {
    && |group| >= 3
    && exists a :: a in Members(hits, threshold) && IsComponentOf(hits, threshold, a, group)
  }

  ghost predicate IsComponentOf(hits: seq<Hit>, threshold: real, a: string, group: set<string>) {
    forall b :: b in group <==> b in Members(hits, threshold) && Connected(hits, threshold, a, b)
  }

  lemma ConnectedToSelf(hits: seq<Hit>, threshold: real, a: string)
    ensures Connected(hits, threshold, a, a)
  {
    assert IsPath(hits, threshold, [a]);
  }

  lemma LinkConnects(hits: seq<Hit>, threshold: real, a: string, b: string)
    requires Linked(hits, threshold, a, b)
    ensures Connected(hits, threshold, a, b)
  {
    assert IsPath(hits, threshold, [a, b]);
  }

  lemma ConnectedBack(hits: seq<Hit>, threshold: real, a: string, b: string)
    requires Connected(hits, threshold, a, b)
    ensures Connected(hits, threshold, b, a)
  {
    var path :| IsPath(hits, threshold, path) && path[0] == a && path[|path| - 1] == b;
    var n := |path|;
    var back := seq(n, i requires 0 <= i < n => path[n - 1 - i]);
    forall i | 0 <= i < n - 1
      ensures Linked(hits, threshold, back[i], back[i + 1])
    {
      var k := n - 2 - i;
      assert Linked(hits, threshold, path[k], path[k + 1]);
    }
    assert IsPath(hits, threshold, back);
  }

  lemma ConnectedOn(hits: seq<Hit>, threshold: real, a: string, b: string, c: string)
    requires Connected(hits, threshold, a, b) && Connected(hits, threshold, b, c)
    ensures Connected(hits, threshold, a, c)
  {
    hide Linked;
    var p :| IsPath(hits, threshold, p) && p[0] == a && p[|p| - 1] == b;
    var q :| IsPath(hits, threshold, q) && q[0] == b && q[|q| - 1] == c;
    var path := p + q[1..];
    forall i | 0 <= i < |path| - 1
      ensures Linked(hits, threshold, path[i], path[i + 1])
    {
      if i >= |p| - 1 {
        var k := i - (|p| - 1);
        assert Linked(hits, threshold, q[k], q[k + 1]);
        assert path[i] == q[k] && path[i + 1] == q[k + 1];
      }
    }
    assert IsPath(hits, threshold, path);
  }

  lemma ConnectedStays(hits: seq<Hit>, more: seq<Hit>, threshold: real, a: string, b: string)
    requires Connected(hits, threshold, a, b) && forall h :: h in hits ==> h in more
    ensures Connected(more, threshold, a, b)
  {
    var path :| IsPath(hits, threshold, path) && path[0] == a && path[|path| - 1] == b;
    assert IsPath(more, threshold, path);
  }

  // ---------- the forest ----------

  /** The table as values: parents, and for the proof each entry's root and a level that rises towards it. */
  datatype Forest = Forest(parent: map<string, string>, rep: map<string, string>, level: map<string, nat>, top: nat)

  function Parent(f: Forest, x: string): string {
    if x in f.parent then f.parent[x] else x
  }

  function Root(f: Forest, x: string): string {
    At(f.rep, x)
  }

  /** The root recorded for a name; a name not entered is its own. */
  function At(rep: map<string, string>, x: string): string {
    if x in rep then rep[x] else x
  }

  function Level(f: Forest, x: string): nat {
    if x in f.level then f.level[x] else 0
  }

  predicate EntryOk(f: Forest, x: string) {
    var p, r := Parent(f, x), Root(f, x);
    && p in f.parent && r in f.parent && Level(f, x) <= f.top
    && Root(f, p) == r && Parent(f, r) == r
    && if p == x then r == x else Level(f, x) < Level(f, p)
  }

  ghost predicate IsForest(f: Forest) {
    && f.rep.Keys == f.parent.Keys == f.level.Keys
    && forall x {:trigger EntryOk(f, x)} :: x in f.parent ==> EntryOk(f, x)
  }

  lemma RootIsItsOwn(f: Forest, x: string)
    requires IsForest(f) && x in f.parent
    ensures Root(f, x) in f.parent && Root(f, Root(f, x)) == Root(f, x) && Parent(f, Root(f, x)) == Root(f, x)
    ensures Parent(f, x) == x <==> Root(f, x) == x
  {
    assert EntryOk(f, x);
    assert EntryOk(f, Root(f, x));
  }

  lemma {:induction false} RootIsAbove(f: Forest, x: string)
    requires IsForest(f) && x in f.parent
    ensures Root(f, x) in f.parent && Level(f, x) <= Level(f, Root(f, x))
    ensures Root(f, x) != x ==> Level(f, x) < Level(f, Root(f, x))
    decreases f.top - Level(f, x)
  {
    assert EntryOk(f, x);
    if Parent(f, x) != x {
      assert EntryOk(f, Parent(f, x));
      RootIsAbove(f, Parent(f, x));
    }
  }

  function Compressed(f: Forest, x: string): Forest {
    f.(parent := f.parent[x := Root(f, x)])
  }

  /** Hanging an entry straight from its root changes no root. */
  lemma CompressedIsForest(f: Forest, x: string)
    requires IsForest(f) && x in f.parent && Parent(f, x) != Root(f, x)
    ensures IsForest(Compressed(f, x))
  {
    var g, r := Compressed(f, x), Root(f, x);
    RootIsItsOwn(f, x);
    RootIsAbove(f, x);
    forall y | y in g.parent
      ensures EntryOk(g, y)
    {
      assert EntryOk(f, y);
      assert Parent(g, y) == if y == x then r else Parent(f, y);
      assert Root(f, y) != x by {
        RootIsItsOwn(f, y);
      }
    }
  }

  function Grown(f: Forest, x: string): Forest
    requires f.rep.Keys == f.parent.Keys == f.level.Keys
  {
    if x in f.parent then f
    else Forest(f.parent[x := x], f.rep[x := x], f.level[x := 0], f.top)
  }

  lemma GrownLooksUp(f: Forest, x: string, y: string)
    requires IsForest(f)
    ensures var g := Grown(f, x);
      && g.rep.Keys == g.parent.Keys == g.level.Keys && g.parent.Keys == f.parent.Keys + {x} && g.top == f.top
      && Parent(g, y) == Parent(f, y) && Root(g, y) == Root(f, y) && Level(g, y) == Level(f, y)
  {
    hide EntryOk;
  }

  lemma GrownIsForest(f: Forest, x: string)
    requires IsForest(f)
    ensures IsForest(Grown(f, x)) && x in Grown(f, x).parent
    ensures forall y :: y in f.parent ==> Root(Grown(f, x), y) == Root(f, y)
  {
    var g := Grown(f, x);
    GrownLooksUp(f, x, x);
    hide Grown;
    forall y
      ensures Root(g, y) == Root(f, y)
      ensures y in g.parent ==> EntryOk(g, y)
    {
      GrownLooksUp(f, x, y);
      if y in g.parent {
        OldEntry(f, x, y);
        hide Parent, Root, Level;
        GrownLooksUp(f, x, Parent(f, y));
        GrownLooksUp(f, x, Root(f, y));
      }
    }
  }

  /** An entry, old or new, is in order in the old table read as everyone's own root beyond its entries. */
  lemma OldEntry(f: Forest, x: string, y: string)
    requires IsForest(f) && (y in f.parent || y == x)
    ensures var p, r := Parent(f, y), Root(f, y);
      && (p in f.parent || p == x) && (r in f.parent || r == x) && Level(f, y) <= f.top
      && Root(f, p) == r && Parent(f, r) == r
      && if p == y then r == y else Level(f, y) < Level(f, p)
  {
    if y in f.parent {
      assert EntryOk(f, y);
    }
  }

  function MergedRoots(rep: map<string, string>, ra: string, rb: string): map<string, string> {
    map x | x in rep :: if rep[x] == ra then rb else rep[x]
  }

  function Merged(f: Forest, ra: string, rb: string): Forest
    requires f.rep.Keys == f.parent.Keys == f.level.Keys
  {
    Forest(f.parent[ra := rb], MergedRoots(f.rep, ra, rb), f.level[rb := f.top + 1], f.top + 1)
  }

  lemma MergedIsForest(f: Forest, ra: string, rb: string)
    requires IsForest(f) && ra in f.parent && rb in f.parent && ra != rb
    requires Parent(f, ra) == ra && Parent(f, rb) == rb
    ensures IsForest(Merged(f, ra, rb))
    ensures forall y :: y in f.parent ==> Root(Merged(f, ra, rb), y) == if Root(f, y) == ra then rb else Root(f, y)
  {
    var g := Merged(f, ra, rb);
    RootIsItsOwn(f, ra);
    RootIsItsOwn(f, rb);
    forall y | y in g.parent
      ensures EntryOk(g, y)
    {
      assert EntryOk(f, y);
      assert Root(g, y) == if Root(f, y) == ra then rb else Root(f, y);
      assert Parent(g, y) == if y == ra then rb else Parent(f, y);
      var p := Parent(f, y);
      assert p in f.parent && Root(g, p) == if Root(f, p) == ra then rb else Root(f, p);
      assert Level(g, y) == if y == rb then f.top + 1 else Level(f, y);
    }
  }

  lemma MergedFields(f: Forest, ra: string, rb: string)
    requires f.rep.Keys == f.parent.Keys == f.level.Keys && ra in f.parent && rb in f.parent
    ensures Merged(f, ra, rb).parent == f.parent[ra := rb] && Merged(f, ra, rb).rep == MergedRoots(f.rep, ra, rb)
    ensures Merged(f, ra, rb).parent.Keys == f.parent.Keys
  {
  }

  /** The roots once two names are entered and their trees made one. */
  function Joined(rep: map<string, string>, a: string, b: string): map<string, string> {
    var grown := rep[a := At(rep, a)];
    var both := grown[b := At(grown, b)];
    if both[a] == both[b] then both else MergedRoots(both, both[a], both[b])
  }

  lemma JoinedByFind(both: map<string, string>, rep: map<string, string>, a: string, b: string, ra: string, rb: string)
    requires var grown := rep[a := At(rep, a)];
      both == grown[b := At(grown, b)] && ra == At(grown, a) && rb == At(both, b)
    ensures Joined(rep, a, b) == if ra == rb then both else MergedRoots(both, ra, rb)
  {
  }

  class UnionFind {
    var parent: map<string, string>
    /** The entries in the order they were made. */
    var names: seq<string>
    ghost var rep: map<string, string>
    ghost var level: map<string, nat>
    ghost var top: nat

    ghost function Trees(): Forest
      reads this
    {
      Forest(parent, rep, level, top)
    }

    ghost predicate Valid()
      reads this
    {
      IsForest(Trees()) && Distinct(names) && forall x :: x in names <==> x in parent
    }

    constructor ()
      ensures Valid() && rep == map[] && names == []
    {
      parent, rep, level, top, names := map[], map[], map[], 0, [];
    }

    /** The root of `x`, entering it first if it is new; every entry keeps its root. */
    method Find(x: string) returns (root: string)
      requires Valid()
      modifies this
      ensures Valid()
      ensures rep == old(rep)[x := At(old(rep), x)]
      ensures names == if x in old(rep) then old(names) else old(names) + [x]
      ensures x in parent && root == At(rep, x) && Parent(Trees(), root) == root && root in parent
    {
      GrownIsForest(Trees(), x);
      ghost var grown := Grown(Trees(), x);
      if x !in parent {
        parent, rep, level, names := parent[x := x], rep[x := x], level[x := 0], names + [x];
      }
      assert Trees() == grown;
      hide Grown, EntryOk;
      root := Climb(x);
      var at := x;
      while parent[at] != root
        invariant IsForest(Trees()) && at in parent && rep == grown.rep && level == grown.level && top == grown.top
        invariant parent.Keys == grown.parent.Keys && names == if x in old(rep) then old(names) else old(names) + [x]
        invariant root == Root(grown, x) == Root(grown, at) && root in parent && Parent(Trees(), root) == root
        decreases top - Level(grown, at)
      {
        var next := parent[at];
        RootIsItsOwn(Trees(), at);
        StepUp(Trees(), at);
        CompressedIsForest(Trees(), at);
        assert Root(Trees(), at) == root && at != root;
        parent := parent[at := root];
        at := next;
      }
    }

    method Climb(x: string) returns (root: string)
      requires IsForest(Trees()) && x in parent
      ensures root == Root(Trees(), x) && root in parent && Parent(Trees(), root) == root
    {
      hide EntryOk;
      root := x;
      while parent[root] != root
        invariant root in parent && Root(Trees(), root) == Root(Trees(), x)
        decreases top - Level(Trees(), root)
      {
        StepUp(Trees(), root);
        root := parent[root];
      }
      RootIsItsOwn(Trees(), root);
    }

    /** Hangs one root from another. */
    method Union(ra: string, rb: string)
      requires Valid() && ra in parent && rb in parent && ra != rb
      requires parent[ra] == ra && parent[rb] == rb
      modifies this
      ensures Valid() && rep == MergedRoots(old(rep), ra, rb) && names == old(names)
    {
      hide EntryOk;
      MergedIsForest(Trees(), ra, rb);
      ghost var merged := Merged(Trees(), ra, rb);
      MergedFields(Trees(), ra, rb);
      hide Merged, MergedRoots, IsForest;
      parent := parent[ra := rb];
      rep, level, top := merged.rep, merged.level, merged.top;
      assert Trees() == merged;
    }

    /** Makes one tree of the two names' trees. */
    method Join(a: string, b: string)
      requires Valid()
      modifies this
      ensures Valid() && rep == Joined(old(rep), a, b)
    {
      hide EntryOk, MergedRoots, IsForest;
      ghost var before := rep;
      var ra := Find(a);
      RootIsItsOwn(Trees(), ra);
      var rb := Find(b);
      RootIsItsOwn(Trees(), ra);
      JoinedByFind(rep, before, a, b, ra, rb);
      hide Joined;
      if ra != rb {
        Union(ra, rb);
      }
    }
  }

  lemma StepUp(f: Forest, x: string)
    requires IsForest(f) && x in f.parent && Parent(f, x) != x
    ensures Parent(f, x) in f.parent && Root(f, Parent(f, x)) == Root(f, x)
    ensures Level(f, x) < Level(f, Parent(f, x)) <= f.top
  {
    assert EntryOk(f, x);
    assert EntryOk(f, Parent(f, x));
  }

  // ---------- roots and components ----------

  /** Every name of a strong hit has a root it is connected to, and linked names share theirs. */
  ghost predicate Agrees(hits: seq<Hit>, threshold: real, rep: map<string, string>) {
    && rep.Keys == Members(hits, threshold)
    && (forall x :: x in rep ==> Connected(hits, threshold, x, rep[x]))
    && (forall x, y :: Linked(hits, threshold, x, y) ==> At(rep, x) == At(rep, y))
  }

  lemma {:induction false} PathKeepsRoot(hits: seq<Hit>, threshold: real, rep: map<string, string>, path: seq<string>)
    requires Agrees(hits, threshold, rep) && IsPath(hits, threshold, path)
    ensures At(rep, path[0]) == At(rep, path[|path| - 1])
  {
    hide Linked, At, Connected;
    if |path| > 1 {
      assert Linked(hits, threshold, path[0], path[1]);
      forall i | 0 <= i < |path[1..]| - 1
        ensures Linked(hits, threshold, path[1..][i], path[1..][i + 1])
      {
        assert Linked(hits, threshold, path[i + 1], path[i + 2]);
      }
      PathKeepsRoot(hits, threshold, rep, path[1..]);
    }
  }

  /** Names share a root exactly when they are connected. */
  lemma RootsTellComponents(hits: seq<Hit>, threshold: real, rep: map<string, string>, x: string, y: string)
    requires Agrees(hits, threshold, rep) && x in rep && y in rep
    ensures rep[x] == rep[y] <==> Connected(hits, threshold, x, y)
  {
    if rep[x] == rep[y] {
      hide Connected;
      ConnectedBack(hits, threshold, y, rep[y]);
      ConnectedOn(hits, threshold, x, rep[x], y);
    }
    if Connected(hits, threshold, x, y) {
      var path :| IsPath(hits, threshold, path) && path[0] == x && path[|path| - 1] == y;
      PathKeepsRoot(hits, threshold, rep, path);
    }
  }

  /** What one more hit adds to the names and the links. */
  lemma HitAdds(hits: seq<Hit>, k: nat, threshold: real)
    requires k < |hits|
    ensures forall h :: h in hits[..k] ==> h in hits[..k + 1]
    ensures Members(hits[..k + 1], threshold)
         == Members(hits[..k], threshold) + if IsStrong(hits[k], threshold) then {hits[k].a, hits[k].b} else {}
    ensures forall x, y :: Linked(hits[..k + 1], threshold, x, y) <==>
      Linked(hits[..k], threshold, x, y) || (IsStrong(hits[k], threshold) && IsEnd(hits[k], x, y))
  {
    hide IsStrong;
    var before, after, h := hits[..k], hits[..k + 1], hits[k];
    assert after == before + [h];
    assert h in after;
    forall x
      ensures x in Members(after, threshold) <==>
        x in Members(before, threshold) || (IsStrong(h, threshold) && (x == h.a || x == h.b))
    {
    }
  }

  predicate IsEnd(h: Hit, x: string, y: string) {
    (x == h.a && y == h.b) || (x == h.b && y == h.a)
  }

  lemma WeakHit(hits: seq<Hit>, k: nat, threshold: real, rep: map<string, string>)
    requires k < |hits| && Agrees(hits[..k], threshold, rep) && !IsStrong(hits[k], threshold)
    ensures Agrees(hits[..k + 1], threshold, rep)
  {
    hide Connected, IsStrong, Linked, Members, At;
    HitAdds(hits, k, threshold);
    forall x | x in rep
      ensures Connected(hits[..k + 1], threshold, x, rep[x])
    {
      ConnectedStays(hits[..k], hits[..k + 1], threshold, x, rep[x]);
    }
  }

  lemma JoinedRoots(rep: map<string, string>, a: string, b: string, x: string)
    ensures Joined(rep, a, b).Keys == rep.Keys + {a, b}
    ensures x in rep || x == a || x == b ==>
      At(Joined(rep, a, b), x) == if At(rep, x) == At(rep, a) then At(rep, b) else At(rep, x)
  {
  }

  lemma StrongHit(hits: seq<Hit>, k: nat, threshold: real, rep: map<string, string>)
    requires k < |hits| && Agrees(hits[..k], threshold, rep) && IsStrong(hits[k], threshold)
    ensures Agrees(hits[..k + 1], threshold, Joined(rep, hits[k].a, hits[k].b))
  {
    hide Connected, IsStrong, Linked, Members, At, Joined;
    HitAdds(hits, k, threshold);
    var before, after, a, b := hits[..k], hits[..k + 1], hits[k].a, hits[k].b;
    var joined := Joined(rep, a, b);
    assert IsEnd(hits[k], a, b) && Linked(after, threshold, a, b);
    JoinedRoots(rep, a, b, a);
    forall x | x in joined
      ensures Connected(after, threshold, x, joined[x])
    {
      JoinedRoots(rep, a, b, x);
      AtEntry(joined, x);
      JoinedConnects(before, after, threshold, rep, a, b, x);
    }
    forall x, y | Linked(after, threshold, x, y)
      ensures At(joined, x) == At(joined, y)
    {
      if Linked(before, threshold, x, y) {
        LinkedAreMembers(before, threshold, x, y);
      }
      JoinedRoots(rep, a, b, x);
      JoinedRoots(rep, a, b, y);
    }
  }

  lemma AtEntry(rep: map<string, string>, x: string)
    requires x in rep
    ensures At(rep, x) == rep[x]
  {
  }

  lemma JoinedConnects(before: seq<Hit>, after: seq<Hit>, threshold: real, rep: map<string, string>,
                       a: string, b: string, x: string)
    requires Agrees(before, threshold, rep) && forall h :: h in before ==> h in after
    requires Linked(after, threshold, a, b)
    ensures Connected(after, threshold, x, if At(rep, x) == At(rep, a) then At(rep, b) else At(rep, x))
  {
    RootStaysConnected(before, after, threshold, rep, x);
    RootStaysConnected(before, after, threshold, rep, a);
    RootStaysConnected(before, after, threshold, rep, b);
    LinkConnects(after, threshold, a, b);
    hide *;
    ConnectedBack(after, threshold, a, At(rep, a));
    if At(rep, x) == At(rep, a) {
      ConnectedOn(after, threshold, x, At(rep, a), a);
      ConnectedOn(after, threshold, x, a, b);
      ConnectedOn(after, threshold, x, b, At(rep, b));
    }
  }

  lemma LinkedAreMembers(hits: seq<Hit>, threshold: real, x: string, y: string)
    requires Linked(hits, threshold, x, y)
    ensures x in Members(hits, threshold) && y in Members(hits, threshold)
  {
  }

  lemma RootStaysConnected(before: seq<Hit>, after: seq<Hit>, threshold: real, rep: map<string, string>, x: string)
    requires Agrees(before, threshold, rep) && forall h :: h in before ==> h in after
    ensures Connected(after, threshold, x, At(rep, x))
  {
    if x in rep {
      ConnectedStays(before, after, threshold, x, rep[x]);
    } else {
      ConnectedToSelf(after, threshold, x);
    }
  }

  // ---------- clusters ----------

  /** The names so far, grouped by root, groups in the order of their first name. */
  ghost predicate AreGroups(rep: map<string, string>, names: seq<string>, roots: seq<string>,
                            groups: map<string, set<string>>) {
    && Distinct(roots) && (forall r :: r in roots <==> r in groups)
    && (forall r, x :: r in groups && x in groups[r] ==> x in names && At(rep, x) == r)
    && (forall x :: x in names ==> At(rep, x) in groups && x in groups[At(rep, x)])
    && (forall r :: r in groups ==> groups[r] != {})
  }

  lemma GroupsAfter(rep: map<string, string>, names: seq<string>, m: nat, roots: seq<string>,
                    groups: map<string, set<string>>)
    requires m < |names| && AreGroups(rep, names[..m], roots, groups)
    ensures var r := At(rep, names[m]);
      AreGroups(rep, names[..m + 1], if r in groups then roots else roots + [r],
                groups[r := (if r in groups then groups[r] else {}) + {names[m]}])
  {
    hide At;
    assert names[..m + 1] == names[..m] + [names[m]];
  }

  method GroupByRoot(uf: UnionFind) returns (roots: seq<string>, groups: map<string, set<string>>)
    requires uf.Valid()
    modifies uf
    ensures uf.Valid() && uf.rep == old(uf.rep) && AreGroups(old(uf.rep), old(uf.names), roots, groups)
  {
    hide IsForest, At;
    var names := uf.names;
    ghost var rep := uf.rep;
    NamesAreEntries(uf);
    roots, groups := [], map[];
    for m := 0 to |names|
      invariant uf.Valid() && uf.rep == rep
      invariant AreGroups(rep, names[..m], roots, groups)
    {
      hide AreGroups;
      GroupsAfter(rep, names, m, roots, groups);
      EnteredAlready(rep, names[m]);
      var r := uf.Find(names[m]);
      if r !in groups {
        roots := roots + [r];
      }
      groups := groups[r := (if r in groups then groups[r] else {}) + {names[m]}];
    }
    assert names[..|names|] == names;
  }

  method ColinearClusters(hits: seq<Hit>, threshold: real) returns (clusters: seq<set<string>>)
    ensures forall g :: g in clusters <==> IsCluster(hits, threshold, g)
    ensures Distinct(clusters)
  {
    hide Agrees, IsForest, IsCluster, AreGroups, Joined;
    var uf := new UnionFind();
    NothingJoined(threshold);
    for k := 0 to |hits|
      invariant uf.Valid() && fresh(uf) && Agrees(hits[..k], threshold, uf.rep)
    {
      if IsStrong(hits[k], threshold) {
        StrongHit(hits, k, threshold, uf.rep);
        uf.Join(hits[k].a, hits[k].b);
      } else {
        WeakHit(hits, k, threshold, uf.rep);
      }
    }
    assert hits[..|hits|] == hits;
    ghost var names, rep := uf.names, uf.rep;
    NamesAreEntries(uf);
    var roots, groups := GroupByRoot(uf);
    clusters := LargeGroups(roots, groups, rep, names);
    forall g
      ensures g in clusters <==> IsCluster(hits, threshold, g)
    {
      GroupsAreComponents(hits, threshold, rep, names, roots, groups, g);
    }
  }

  lemma EnteredAlready(rep: map<string, string>, x: string)
    requires x in rep
    ensures rep[x := At(rep, x)] == rep
  {
  }

  lemma NamesAreEntries(uf: UnionFind)
    requires uf.Valid()
    ensures forall x :: x in uf.names <==> x in uf.rep
  {
    hide EntryOk;
  }

  lemma NothingJoined(threshold: real)
    ensures Agrees([], threshold, map[])
  {
  }

  method LargeGroups(roots: seq<string>, groups: map<string, set<string>>, ghost rep: map<string, string>,
                     ghost names: seq<string>)
    returns (clusters: seq<set<string>>)
    requires AreGroups(rep, names, roots, groups)
    ensures forall g :: g in clusters <==> |g| >= 3 && exists r :: r in groups && groups[r] == g
    ensures Distinct(clusters)
  {
    clusters := [];
    for m := 0 to |roots|
      invariant forall g :: g in clusters <==> |g| >= 3 && exists r :: r in roots[..m] && groups[r] == g
      invariant Distinct(clusters)
    {
      var g := groups[roots[m]];
      assert roots[..m + 1] == roots[..m] + [roots[m]];
      NewGroup(rep, names, roots, groups, m);
      if |g| >= 3 {
        clusters := clusters + [g];
      }
    }
    assert roots[..|roots|] == roots;
  }

  lemma NewGroup(rep: map<string, string>, names: seq<string>, roots: seq<string>, groups: map<string, set<string>>,
                 m: nat)
    requires AreGroups(rep, names, roots, groups) && m < |roots|
    ensures forall r :: r in roots[..m] ==> groups[r] != groups[roots[m]]
  {
    forall r | r in roots[..m]
      ensures groups[r] != groups[roots[m]]
    {
      assert roots[m] in roots && r in roots;
      var x :| x in groups[roots[m]];
      assert At(rep, x) == roots[m] != r;
    }
  }

  lemma GroupsAreComponents(hits: seq<Hit>, threshold: real, rep: map<string, string>, names: seq<string>,
                            roots: seq<string>, groups: map<string, set<string>>, g: set<string>)
    requires Agrees(hits, threshold, rep) && AreGroups(rep, names, roots, groups)
    requires forall x :: x in names <==> x in rep
    ensures IsCluster(hits, threshold, g) <==> |g| >= 3 && exists r :: r in groups && groups[r] == g
  {
    AgreesKeys(hits, threshold, rep);
    hide Agrees, At, Connected, Members, IsComponentOf, AreGroups;
    if IsCluster(hits, threshold, g) {
      var a :| a in Members(hits, threshold) && IsComponentOf(hits, threshold, a, g);
      GroupIsComponent(hits, threshold, rep, names, roots, groups, a);
      ComponentIsUnique(hits, threshold, a, g, groups[rep[a]]);
    }
    if r :| r in groups && groups[r] == g {
      var a := GroupHasMember(rep, names, roots, groups, r);
      AtEntry(rep, a);
      GroupIsComponent(hits, threshold, rep, names, roots, groups, a);
    }
  }

  lemma ComponentIsUnique(hits: seq<Hit>, threshold: real, a: string, g: set<string>, h: set<string>)
    requires IsComponentOf(hits, threshold, a, g) && IsComponentOf(hits, threshold, a, h)
    ensures g == h
  {
    hide Connected, Members;
  }

  lemma GroupHasMember(rep: map<string, string>, names: seq<string>, roots: seq<string>,
                       groups: map<string, set<string>>, r: string) returns (a: string)
    requires AreGroups(rep, names, roots, groups) && r in groups
    ensures a in groups[r] && a in names && At(rep, a) == r
  {
    a :| a in groups[r];
  }

  lemma GroupIsComponent(hits: seq<Hit>, threshold: real, rep: map<string, string>, names: seq<string>,
                         roots: seq<string>, groups: map<string, set<string>>, a: string)
    requires Agrees(hits, threshold, rep) && AreGroups(rep, names, roots, groups)
    requires a in rep && forall x :: x in names <==> x in rep
    ensures rep[a] in groups && IsComponentOf(hits, threshold, a, groups[rep[a]])
  {
    hide Connected, Agrees, Members, At;
    AgreesKeys(hits, threshold, rep);
    AtEntry(rep, a);
    assert a in names;
    forall b
      ensures b in groups[rep[a]] <==> b in Members(hits, threshold) && Connected(hits, threshold, a, b)
    {
      if b in rep {
        assert b in names;
        AtEntry(rep, b);
        RootsTellComponents(hits, threshold, rep, a, b);
      }
    }
  }

  lemma AgreesKeys(hits: seq<Hit>, threshold: real, rep: map<string, string>)
    requires Agrees(hits, threshold, rep)
    ensures forall x :: x in rep <==> x in Members(hits, threshold)
  {
  }
}

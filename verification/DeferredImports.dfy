/**
  Which modules an import loads, and which deferred imports can be hoisted to module level
  without closing an import cycle.
 */
module DeferredImports {
  import opened Graphs

  // ---------- parent packages ----------

  predicate IsParent(p: Node, m: Node) {
    exists i :: 0 <= i < |m| && m[i] == '.' && m[..i] == p
  }

  /** The packages above a module, outermost first: its name cut before each dot. */
  function ParentsUpTo(m: Node, n: nat): (ps: seq<Node>)
    requires n <= |m|
    ensures forall p :: p in ps <==> exists i :: 0 <= i < n && m[i] == '.' && m[..i] == p
  {
    if n == 0 then []
    else if m[n - 1] == '.' then ParentsUpTo(m, n - 1) + [m[..n - 1]]
    else ParentsUpTo(m, n - 1)
  }

  function Parents(m: Node): (ps: seq<Node>)
    ensures forall p :: p in ps <==> IsParent(p, m)
  {
    ParentsUpTo(m, |m|)
  }

  // ---------- what importing a module loads ----------

  datatype Importer = Anyone | Named(name: Node)

  /** The parents whose load counts: not the package that is already being imported. */
  function LoadedParents(m: Node, importer: Importer): (ps: seq<Node>)
    ensures forall p :: p in ps <==> IsParent(p, m) && importer != Named(p)
  {
    Keep(Parents(m), importer)
  }

  function Keep(ps: seq<Node>, importer: Importer): (r: seq<Node>)
    ensures forall p :: p in r <==> p in ps && importer != Named(p)
  {
    if ps == [] then []
    else (if importer == Named(ps[0]) then [] else [ps[0]]) + Keep(ps[1..], importer)
  }

  /** One load leads to another: an import statement, or the load of a parent package. */
  ghost predicate Leads(known: set<Node>, edges: Graph, importer: Importer, a: Node, b: Node) {
    && a in known && b in known
    && (Edge(edges, a, b) || (IsParent(b, a) && importer != Named(b)))
  }

  ghost function LoadGraph(known: set<Node>, edges: Graph, importer: Importer): Graph {
    map a | a in known :: set b | b in known && Leads(known, edges, importer, a, b)
  }

  /** Where importing `start` begins: the module itself and its parents. */
  ghost predicate BeginsAt(known: set<Node>, importer: Importer, start: Node, r: Node) {
    r in known && (r == start || (IsParent(r, start) && importer != Named(r)))
  }

  /** Importing `start` loads `m`. */
  ghost predicate LoadsModule(known: set<Node>, edges: Graph, importer: Importer, start: Node, m: Node) {
    exists r :: BeginsAt(known, importer, start, r) && Reach(LoadGraph(known, edges, importer), r, m)
  }

  lemma LoadEdge(known: set<Node>, edges: Graph, importer: Importer, a: Node, b: Node)
    ensures Edge(LoadGraph(known, edges, importer), a, b) <==> Leads(known, edges, importer, a, b)
  {
  }

  method ListOf(s: set<Node>) returns (q: seq<Node>)
    ensures forall x :: x in q <==> x in s
  {
    q := [];
    var todo := s;
    while todo != {}
      invariant todo <= s && forall x :: x in q <==> x in s - todo
    {
      var x :| x in todo;
      todo := todo - {x};
      q := q + [x];
    }
  }

  /** Nothing the search has seen leads outside what it has seen or still has queued. */
  ghost predicate Frontier(known: set<Node>, edges: Graph, importer: Importer, seen: set<Node>, queue: seq<Node>) {
    forall a, b :: a in seen && Leads(known, edges, importer, a, b) ==> b in seen || b in queue
  }

  lemma FrontierGrows(known: set<Node>, edges: Graph, importer: Importer, seen: set<Node>, queue: seq<Node>,
                      m: Node, more: seq<Node>)
    requires Frontier(known, edges, importer, seen, [m] + queue)
    requires forall b :: b in Successors(edges, m) ==> b in more
    requires forall b :: IsParent(b, m) && importer != Named(b) ==> b in more
    ensures Frontier(known, edges, importer, seen + {m}, queue + more)
  {
    hide IsParent;
    forall a, b | a in seen + {m} && Leads(known, edges, importer, a, b)
      ensures b in seen + {m} || b in queue + more
    {
      if a in seen {
        assert b in seen || b in [m] + queue;
      }
    }
  }

  lemma LoadsOneMore(known: set<Node>, edges: Graph, importer: Importer, start: Node, a: Node, b: Node)
    requires LoadsModule(known, edges, importer, start, a) && Leads(known, edges, importer, a, b)
    ensures LoadsModule(known, edges, importer, start, b)
  {
    LoadEdge(known, edges, importer, a, b);
    hide Reach, LoadGraph, BeginsAt, Leads;
    var g := LoadGraph(known, edges, importer);
    var r :| BeginsAt(known, importer, start, r) && Reach(g, r, a);
    ReachEdge(g, a, b);
    ReachTransitive(g, r, a, b);
  }

  lemma BeginningIsLoaded(known: set<Node>, edges: Graph, importer: Importer, start: Node, r: Node)
    requires BeginsAt(known, importer, start, r)
    ensures LoadsModule(known, edges, importer, start, r)
  {
    ReachSelf(LoadGraph(known, edges, importer), r);
  }

  /** A set that holds every beginning and is not left by any load holds everything loaded. */
  lemma LoadedIsSeen(known: set<Node>, edges: Graph, importer: Importer, start: Node, seen: set<Node>, m: Node)
    requires Frontier(known, edges, importer, seen, [])
    requires forall r :: BeginsAt(known, importer, start, r) ==> r in seen
    requires LoadsModule(known, edges, importer, start, m)
    ensures m in seen
  {
    hide Reach;
    var g := LoadGraph(known, edges, importer);
    var r :| BeginsAt(known, importer, start, r) && Reach(g, r, m);
    forall a | a in seen
      ensures Successors(g, a) <= seen
    {
      forall b | b in Successors(g, a)
        ensures b in seen
      {
        LoadEdge(known, edges, importer, a, b);
      }
    }
    ReachStaysIn(g, seen, r, m);
  }

  /** A queued module is one the import may load. */
  ghost predicate Queueable(known: set<Node>, edges: Graph, importer: Importer, start: Node, q: Node) {
    q in known ==> LoadsModule(known, edges, importer, start, q)
  }

  /** Every module that importing `start` loads. */
  method ReachFrom(known: set<Node>, edges: Graph, start: Node, importer: Importer) returns (seen: set<Node>)
    ensures forall m :: m in seen <==> m in known && LoadsModule(known, edges, importer, start, m)
  {
    hide Reach, LoadsModule, IsParent, Frontier, Queueable;
    seen := {};
    var queue := [start] + LoadedParents(start, importer);
    QueueStarts(known, edges, importer, start, queue);
    while queue != []
      invariant seen <= known
      invariant forall m :: m in seen ==> LoadsModule(known, edges, importer, start, m)
      invariant forall q :: q in queue ==> Queueable(known, edges, importer, start, q)
      invariant Frontier(known, edges, importer, seen, queue)
      invariant forall r :: BeginsAt(known, importer, start, r) ==> r in seen || r in queue
      decreases known - seen, |queue|
    {
      var m := queue[0];
      assert queue == [m] + queue[1..];
      queue := queue[1..];
      if m in seen || m !in known {
        FrontierSkips(known, edges, importer, seen, queue, m);
        continue;
      }
      assert LoadsModule(known, edges, importer, start, m) by {
        QueuedIsLoaded(known, edges, importer, start, m);
      }
      var imports := ListOf(Successors(edges, m));
      var more := imports + LoadedParents(m, importer);
      FrontierGrows(known, edges, importer, seen, queue, m, more);
      MoreIsQueueable(known, edges, importer, start, m, more);
      seen := seen + {m};
      queue := queue + more;
    }
    forall m | m in known && LoadsModule(known, edges, importer, start, m)
      ensures m in seen
    {
      LoadedIsSeen(known, edges, importer, start, seen, m);
    }
  }

  lemma QueuedIsLoaded(known: set<Node>, edges: Graph, importer: Importer, start: Node, m: Node)
    requires m in known && Queueable(known, edges, importer, start, m)
    ensures LoadsModule(known, edges, importer, start, m)
  {
  }

  lemma QueueStarts(known: set<Node>, edges: Graph, importer: Importer, start: Node, queue: seq<Node>)
    requires forall q :: q in queue <==> q == start || (IsParent(q, start) && importer != Named(q))
    ensures forall q :: q in queue ==> Queueable(known, edges, importer, start, q)
    ensures Frontier(known, edges, importer, {}, queue)
    ensures forall r :: BeginsAt(known, importer, start, r) ==> r in queue
  {
    hide IsParent, LoadsModule;
    forall q | q in queue
      ensures Queueable(known, edges, importer, start, q)
    {
      if q in known {
        BeginningIsLoaded(known, edges, importer, start, q);
      }
    }
  }

  lemma FrontierSkips(known: set<Node>, edges: Graph, importer: Importer, seen: set<Node>, queue: seq<Node>, m: Node)
    requires Frontier(known, edges, importer, seen, [m] + queue) && (m in seen || m !in known)
    ensures Frontier(known, edges, importer, seen, queue)
  {
    hide IsParent;
    forall a, b | a in seen && Leads(known, edges, importer, a, b)
      ensures b in seen || b in queue
    {
      assert b in seen || b in [m] + queue;
    }
  }

  lemma MoreIsQueueable(known: set<Node>, edges: Graph, importer: Importer, start: Node, m: Node, more: seq<Node>)
    requires m in known && LoadsModule(known, edges, importer, start, m)
    requires forall b :: b in more <==> b in Successors(edges, m) || (IsParent(b, m) && importer != Named(b))
    ensures forall q :: q in more ==> Queueable(known, edges, importer, start, q)
  {
    hide IsParent, LoadsModule;
    forall q | q in more
      ensures Queueable(known, edges, importer, start, q)
    {
      if q in known {
        assert Leads(known, edges, importer, m, q);
        LoadsOneMore(known, edges, importer, start, m, q);
      }
    }
  }

  // ---------- classifying deferred imports ----------

  datatype FunctionImport = FunctionImport(mod: Node, targets: seq<Node>, inTry: bool)

  datatype Kind = LoadedAlready | Heavy | JoinsCycle | OtherImport

  /** The module itself, or a package above it. */
  predicate IsSelfOrAbove(t: Node, m: Node) {
    t == m || t + "." <= m
  }

  /** Hoisting `imp` adds an edge to its target `t`. */
  predicate AddsTarget(imp: FunctionImport, t: Node) {
    t in imp.targets && !IsSelfOrAbove(t, imp.mod)
  }

  /** Hoisting `imp` adds the edge from its module to `x`: a new target or a package above one. */
  ghost predicate HoistAdds(imp: FunctionImport, x: Node) {
    exists t :: AddsTarget(imp, t) && (x == t || IsParent(x, t))
  }

  /** The module-level edges once `hoisted` are module-level too. */
  ghost predicate HoistedEdges(edges: Graph, hoisted: seq<FunctionImport>, more: Graph) {
    forall a, b :: Edge(more, a, b) <==>
      Edge(edges, a, b) || exists i :: 0 <= i < |hoisted| && hoisted[i].mod == a && HoistAdds(hoisted[i], b)
  }

  /** In the graph `edges`, some target of `imp` loads the importing module again. */
  ghost predicate ComesBack(known: set<Node>, edges: Graph, imp: FunctionImport) {
    exists t :: AddsTarget(imp, t) && imp.mod in known && LoadsModule(known, edges, Named(imp.mod), t, imp.mod)
  }

  method NewTargets(imp: FunctionImport) returns (ts: seq<Node>)
    ensures forall t :: t in ts <==> AddsTarget(imp, t)
  {
    ts := [];
    for i := 0 to |imp.targets|
      invariant forall t :: t in ts <==> t in imp.targets[..i] && !IsSelfOrAbove(t, imp.mod)
    {
      var t := imp.targets[i];
      assert imp.targets[..i + 1] == imp.targets[..i] + [t];
      if t != imp.mod && !(t + "." <= imp.mod) {
        ts := ts + [t];
      }
    }
    assert imp.targets[..|imp.targets|] == imp.targets;
  }

  ghost predicate AtOrAbove(ts: seq<Node>, b: Node) {
    exists t :: t in ts && (b == t || IsParent(b, t))
  }

  lemma AtOrAboveMore(ts: seq<Node>, t: Node)
    ensures forall b :: AtOrAbove(ts + [t], b) <==> AtOrAbove(ts, b) || b == t || IsParent(b, t)
  {
    hide IsParent;
    forall b
      ensures AtOrAbove(ts + [t], b) <==> AtOrAbove(ts, b) || b == t || IsParent(b, t)
    {
      if AtOrAbove(ts, b) {
        var u :| u in ts && (b == u || IsParent(b, u));
        assert u in ts + [t];
      }
      if b == t || IsParent(b, t) {
        assert t in ts + [t];
      }
    }
  }

  method HoistOne(edges: Graph, imp: FunctionImport) returns (more: Graph)
    ensures forall a, b :: Edge(more, a, b) <==> Edge(edges, a, b) || (a == imp.mod && HoistAdds(imp, b))
  {
    hide IsParent;
    var ts := NewTargets(imp);
    more := edges;
    for i := 0 to |ts|
      invariant forall a, b :: Edge(more, a, b) <==> Edge(edges, a, b) || (a == imp.mod && AtOrAbove(ts[..i], b))
    {
      AtOrAboveMore(ts[..i], ts[i]);
      assert ts[..i + 1] == ts[..i] + [ts[i]];
      var ps := Parents(ts[i]);
      var added := {ts[i]} + set p | p in ps;
      ghost var before := more;
      more := more[imp.mod := Successors(more, imp.mod) + added];
      assert forall b :: b in added <==> b == ts[i] || IsParent(b, ts[i]);
      assert forall a, b :: Edge(more, a, b) <==> Edge(before, a, b) || (a == imp.mod && b in added);
    }
    assert ts[..|ts|] == ts;
    forall b
      ensures HoistAdds(imp, b) <==> AtOrAbove(ts, b)
    {
      if HoistAdds(imp, b) {
        var t :| AddsTarget(imp, t) && (b == t || IsParent(b, t));
        assert t in ts;
      }
    }
  }

  method HoistAll(edges: Graph, hoisted: seq<FunctionImport>) returns (more: Graph)
    ensures HoistedEdges(edges, hoisted, more)
  {
    hide HoistAdds, Edge;
    more := edges;
    for i := 0 to |hoisted|
      invariant HoistedEdges(edges, hoisted[..i], more)
    {
      assert hoisted[..i + 1] == hoisted[..i] + [hoisted[i]];
      more := HoistOne(more, hoisted[i]);
    }
    assert hoisted[..|hoisted|] == hoisted;
  }

  /** Importing `m` loads a module that imports a heavy package. */
  ghost predicate IsHeavy(known: set<Node>, edges: Graph, heavy: set<Node>, m: Node) {
    exists h :: h in heavy && h in known && LoadsModule(known, edges, Anyone, m, h)
  }

  /** Before cycles are looked at: what each import is by itself. */
  ghost predicate FirstVerdict(known: set<Node>, edges: Graph, heavy: set<Node>, loaded: set<Node>,
                               imp: FunctionImport, k: Kind) {
    if imp.inTry then k == OtherImport
    else if imp.targets != [] && forall t :: t in imp.targets ==> t in loaded then k == LoadedAlready
    else if exists t :: t in imp.targets && IsHeavy(known, edges, heavy, t) then k == Heavy
    else k == OtherImport
  }

  method FirstKind(known: set<Node>, edges: Graph, heavy: set<Node>, loaded: set<Node>, imp: FunctionImport)
    returns (k: Kind)
    ensures FirstVerdict(known, edges, heavy, loaded, imp, k)
  {
    hide LoadsModule;
    if imp.inTry {
      return OtherImport;
    }
    if imp.targets != [] && forall t :: t in imp.targets ==> t in loaded {
      return LoadedAlready;
    }
    for i := 0 to |imp.targets|
      invariant forall j :: 0 <= j < i ==> !IsHeavy(known, edges, heavy, imp.targets[j])
    {
      var reached := ReachFrom(known, edges, imp.targets[i], Anyone);
      if exists h :: h in heavy && h in reached {
        assert IsHeavy(known, edges, heavy, imp.targets[i]);
        return Heavy;
      }
    }
    return OtherImport;
  }

  method JoinsACycle(known: set<Node>, edges: Graph, imp: FunctionImport) returns (yes: bool)
    ensures yes <==> ComesBack(known, edges, imp)
  {
    hide LoadsModule, AddsTarget;
    var ts := NewTargets(imp);
    for i := 0 to |ts|
      invariant forall j :: 0 <= j < i ==>
        !(imp.mod in known && LoadsModule(known, edges, Named(imp.mod), ts[j], imp.mod))
    {
      var reached := ReachFrom(known, edges, ts[i], Named(imp.mod));
      if imp.mod in reached {
        return true;
      }
    }
    return false;
  }

  /** The imports that are loaded already, in order. */
  function LoadedOnes(imports: seq<FunctionImport>, kinds: seq<Kind>): (r: seq<FunctionImport>)
    requires |kinds| == |imports|
    ensures forall imp :: imp in r <==> exists i :: 0 <= i < |imports| && imports[i] == imp && kinds[i] == LoadedAlready
  {
    if imports == [] then []
    else
      var n := |imports| - 1;
      LoadedOnes(imports[..n], kinds[..n]) + if kinds[n] == LoadedAlready then [imports[n]] else []
  }

  /**
    The verdicts: an import loaded already joins a cycle exactly when, with every such import
    hoisted, one of its targets loads its module again.
   */
  ghost predicate Classified(known: set<Node>, edges: Graph, heavy: set<Node>, loaded: set<Node>,
                             imports: seq<FunctionImport>, first: seq<Kind>, all: Graph, kinds: seq<Kind>)
  {
    && |first| == |imports| == |kinds|
    && (forall i :: 0 <= i < |imports| ==> FirstVerdict(known, edges, heavy, loaded, imports[i], first[i]))
    && HoistedEdges(edges, LoadedOnes(imports, first), all)
    && (forall i :: 0 <= i < |imports| ==>
          kinds[i] == if first[i] == LoadedAlready && ComesBack(known, all, imports[i]) then JoinsCycle else first[i])
  }

  ghost predicate AreVerdicts(known: set<Node>, edges: Graph, heavy: set<Node>, loaded: set<Node>,
                              imports: seq<FunctionImport>, kinds: seq<Kind>) {
    exists first, all :: Classified(known, edges, heavy, loaded, imports, first, all, kinds)
  }

  method Classify(known: set<Node>, edges: Graph, heavy: set<Node>, loaded: set<Node>, imports: seq<FunctionImport>)
    returns (kinds: seq<Kind>)
    ensures AreVerdicts(known, edges, heavy, loaded, imports, kinds)
  {
    hide FirstVerdict, ComesBack, HoistedEdges;
    var verdicts: seq<Kind> := [];
    for i := 0 to |imports|
      invariant |verdicts| == i
      invariant forall j :: 0 <= j < i ==> FirstVerdict(known, edges, heavy, loaded, imports[j], verdicts[j])
    {
      var k := FirstKind(known, edges, heavy, loaded, imports[i]);
      verdicts := verdicts + [k];
    }
    var hoisted := HoistAll(edges, LoadedOnes(imports, verdicts));
    kinds := [];
    for i := 0 to |imports|
      invariant |kinds| == i
      invariant forall j :: 0 <= j < i ==>
        kinds[j] ==
          if verdicts[j] == LoadedAlready && ComesBack(known, hoisted, imports[j]) then JoinsCycle else verdicts[j]
    {
      var back := false;
      if verdicts[i] == LoadedAlready {
        back := JoinsACycle(known, hoisted, imports[i]);
      }
      kinds := kinds + [if back then JoinsCycle else verdicts[i]];
    }
    assert Classified(known, edges, heavy, loaded, imports, verdicts, hoisted, kinds);
  }

  // ---------- hoisting any of the surviving imports closes no cycle ----------

  lemma MoreEdgesMoreLoads(known: set<Node>, few: Graph, many: Graph, importer: Importer, start: Node, m: Node)
    requires forall a, b :: Edge(few, a, b) ==> Edge(many, a, b)
    requires LoadsModule(known, few, importer, start, m)
    ensures LoadsModule(known, many, importer, start, m)
  {
    var g, h := LoadGraph(known, few, importer), LoadGraph(known, many, importer);
    var r :| BeginsAt(known, importer, start, r) && Reach(g, r, m);
    var p :| PathBetween(g, p, r, m);
    forall i | 0 <= i < |p| - 1
      ensures Edge(h, p[i], p[i + 1])
    {
      assert Edge(g, p[i], p[i + 1]);
      LoadEdge(known, few, importer, p[i], p[i + 1]);
      LoadEdge(known, many, importer, p[i], p[i + 1]);
    }
    assert PathBetween(h, p, r, m);
  }

  lemma FewerHoisted(edges: Graph, some: seq<FunctionImport>, all: seq<FunctionImport>, few: Graph, many: Graph)
    requires HoistedEdges(edges, some, few) && HoistedEdges(edges, all, many)
    requires forall imp :: imp in some ==> imp in all
    ensures forall a, b :: Edge(few, a, b) ==> Edge(many, a, b)
  {
    hide HoistAdds, Edge;
    forall a, b | Edge(few, a, b)
      ensures Edge(many, a, b)
    {
      if !Edge(edges, a, b) {
        var i :| 0 <= i < |some| && some[i].mod == a && HoistAdds(some[i], b);
        assert some[i] in all;
      }
    }
  }

  /** What a parent of a target loads, importing the target loads too. */
  lemma ParentLoadsLess(known: set<Node>, edges: Graph, importer: Importer, t: Node, x: Node, m: Node)
    requires (x == t || IsParent(x, t)) && importer != Named(x) && x in known
    requires Reach(LoadGraph(known, edges, importer), x, m)
    ensures LoadsModule(known, edges, importer, t, m)
  {
    assert BeginsAt(known, importer, t, x);
  }

  /** A cycle with some of the loaded imports hoisted shows with all of them hoisted. */
  lemma CycleShowsWithAll(known: set<Node>, edges: Graph, some: seq<FunctionImport>, all: seq<FunctionImport>,
                          few: Graph, many: Graph, imp: FunctionImport, x: Node)
    requires HoistedEdges(edges, some, few) && HoistedEdges(edges, all, many)
    requires forall s :: s in some ==> s in all
    requires HoistAdds(imp, x) && x != imp.mod && x in known
    requires Reach(LoadGraph(known, few, Named(imp.mod)), x, imp.mod)
    ensures ComesBack(known, many, imp)
  {
    hide Reach, LoadGraph, LoadsModule, HoistedEdges, IsParent;
    var t :| AddsTarget(imp, t) && (x == t || IsParent(x, t));
    ParentLoadsLess(known, few, Named(imp.mod), t, x, imp.mod);
    FewerHoisted(edges, some, all, few, many);
    MoreEdgesMoreLoads(known, few, many, Named(imp.mod), t, imp.mod);
    LoadedAreKnown(known, many, Named(imp.mod), t, imp.mod);
  }

  /**
    Take any of the imports that stay `LoadedAlready` and hoist them together. Then no edge that
    one of them adds lies on a cycle: what it leads to never loads the importing module again. The one
    edge left out is a module's edge to itself, which hoisting adds when a target lies below the module;
    it stands for no import, as the module is being loaded already.
   */
  lemma HoistingSurvivorsClosesNoCycle(known: set<Node>, edges: Graph, heavy: set<Node>, loaded: set<Node>,
                                       imports: seq<FunctionImport>, kinds: seq<Kind>,
                                       some: seq<FunctionImport>, few: Graph, imp: FunctionImport, x: Node)
    requires AreVerdicts(known, edges, heavy, loaded, imports, kinds)
    requires forall s :: s in some ==> exists i :: 0 <= i < |imports| && imports[i] == s && kinds[i] == LoadedAlready
    requires HoistedEdges(edges, some, few)
    requires imp in some && HoistAdds(imp, x) && x != imp.mod && x in known
    ensures !Reach(LoadGraph(known, few, Named(imp.mod)), x, imp.mod)
  {
    hide Reach, LoadGraph, FirstVerdict, HoistedEdges, ComesBack, HoistAdds;
    var first, all :| Classified(known, edges, heavy, loaded, imports, first, all, kinds);
    forall s | s in some
      ensures s in LoadedOnes(imports, first)
    {
    }
    if Reach(LoadGraph(known, few, Named(imp.mod)), x, imp.mod) {
      CycleShowsWithAll(known, edges, some, LoadedOnes(imports, first), few, all, imp, x);
    }
  }

  lemma LoadedAreKnown(known: set<Node>, edges: Graph, importer: Importer, start: Node, m: Node)
    requires LoadsModule(known, edges, importer, start, m)
    ensures m in known
  {
    hide Reach;
    var g := LoadGraph(known, edges, importer);
    var r :| BeginsAt(known, importer, start, r) && Reach(g, r, m);
    ReachStaysIn(g, known, r, m);
  }

  // ---------- in plain terms ----------

  /** `m` lies below the package `p`. */
  lemma ParentIsPrefix(p: Node, m: Node)
    ensures IsParent(p, m) <==> exists rest :: m == p + "." + rest
    ensures IsSelfOrAbove(p, m) <==> p == m || IsParent(p, m)
  {
    if i :| 0 <= i < |m| && m[i] == '.' && m[..i] == p {
      assert m == p + "." + m[i + 1..];
    }
    if rest :| m == p + "." + rest {
      assert m[|p|] == '.' && m[..|p|] == p;
    }
    if p + "." <= m {
      assert m == p + "." + m[|p| + 1..];
    }
  }

  /** What a verdict says of its import, whatever the others are. */
  lemma VerdictSays(known: set<Node>, edges: Graph, heavy: set<Node>, loaded: set<Node>,
                    imports: seq<FunctionImport>, kinds: seq<Kind>, i: nat)
    requires AreVerdicts(known, edges, heavy, loaded, imports, kinds) && i < |imports|
    ensures |kinds| == |imports| && var imp, k := imports[i], kinds[i];
      && (imp.inTry ==> k == OtherImport)
      && (k == LoadedAlready || k == JoinsCycle <==>
            !imp.inTry && imp.targets != [] && forall t :: t in imp.targets ==> t in loaded)
      && (k == Heavy ==> exists t, h :: t in imp.targets && h in heavy && LoadsModule(known, edges, Anyone, t, h))
      && (k == OtherImport && !imp.inTry ==>
            forall t, h :: t in imp.targets && h in heavy && h in known ==> !LoadsModule(known, edges, Anyone, t, h))
  {
    hide LoadsModule, ComesBack, HoistedEdges;
    var first, all :| Classified(known, edges, heavy, loaded, imports, first, all, kinds);
    assert FirstVerdict(known, edges, heavy, loaded, imports[i], first[i]);
    if kinds[i] == Heavy {
      var t :| t in imports[i].targets && IsHeavy(known, edges, heavy, t);
    } else if kinds[i] == OtherImport && !imports[i].inTry {
      forall t, h | t in imports[i].targets && h in heavy && h in known
        ensures !LoadsModule(known, edges, Anyone, t, h)
      {
        assert !IsHeavy(known, edges, heavy, t);
      }
    }
  }

  /** `hoisted` are the imports loaded already, suspects included. */
  ghost predicate AreLoaded(imports: seq<FunctionImport>, kinds: seq<Kind>, hoisted: seq<FunctionImport>)
    requires |kinds| == |imports|
  {
    forall imp :: imp in hoisted <==>
      exists i :: 0 <= i < |imports| && imports[i] == imp && (kinds[i] == LoadedAlready || kinds[i] == JoinsCycle)
  }

  lemma LoadedEitherWay(known: set<Node>, edges: Graph, heavy: set<Node>, loaded: set<Node>,
                        imports: seq<FunctionImport>, first: seq<Kind>, all: Graph, kinds: seq<Kind>,
                        hoisted: seq<FunctionImport>)
    requires Classified(known, edges, heavy, loaded, imports, first, all, kinds) && AreLoaded(imports, kinds, hoisted)
    ensures forall imp :: imp in hoisted <==> imp in LoadedOnes(imports, first)
  {
    hide ComesBack, HoistedEdges, LoadedOnes, IsHeavy;
    forall i | 0 <= i < |imports|
      ensures first[i] == LoadedAlready <==> kinds[i] == LoadedAlready || kinds[i] == JoinsCycle
    {
      assert FirstVerdict(known, edges, heavy, loaded, imports[i], first[i]);
    }
    hide FirstVerdict;
  }

  /** With all imports loaded already hoisted, a suspect is one whose new edges do lead back to its module. */
  lemma SuspectIffCycle(known: set<Node>, edges: Graph, heavy: set<Node>, loaded: set<Node>,
                        imports: seq<FunctionImport>, kinds: seq<Kind>,
                        hoisted: seq<FunctionImport>, more: Graph, i: nat)
    requires AreVerdicts(known, edges, heavy, loaded, imports, kinds) && i < |imports|
    requires |kinds| == |imports| && AreLoaded(imports, kinds, hoisted) && HoistedEdges(edges, hoisted, more)
    ensures kinds[i] == JoinsCycle <==>
      && (kinds[i] == LoadedAlready || kinds[i] == JoinsCycle)
      && imports[i].mod in known
      && exists x :: LeadsBack(known, more, imports[i], x)
  {
    hide Reach, LoadGraph, HoistedEdges, FirstVerdict, LoadsModule;
    var first, all :| Classified(known, edges, heavy, loaded, imports, first, all, kinds);
    LoadedEitherWay(known, edges, heavy, loaded, imports, first, all, kinds, hoisted);
    FewerHoisted(edges, hoisted, LoadedOnes(imports, first), more, all);
    FewerHoisted(edges, LoadedOnes(imports, first), hoisted, all, more);
    ComesBackIff(known, more, all, imports[i]);
    assert FirstVerdict(known, edges, heavy, loaded, imports[i], first[i]);
    NeverACycleAtFirst(known, edges, heavy, loaded, imports[i], first[i]);
    hide ComesBack, LeadsBack;
  }

  lemma NeverACycleAtFirst(known: set<Node>, edges: Graph, heavy: set<Node>, loaded: set<Node>,
                           imp: FunctionImport, k: Kind)
    requires FirstVerdict(known, edges, heavy, loaded, imp, k)
    ensures k != JoinsCycle
  {
  }

  /** Hoisting adds the edge to `x`, and what that loads leads back to the importing module. */
  ghost predicate LeadsBack(known: set<Node>, edges: Graph, imp: FunctionImport, x: Node) {
    && HoistAdds(imp, x) && x in known && x != imp.mod
    && Reach(LoadGraph(known, edges, Named(imp.mod)), x, imp.mod)
  }

  lemma ComesBackIff(known: set<Node>, edges: Graph, same: Graph, imp: FunctionImport)
    requires forall a, b :: Edge(edges, a, b) <==> Edge(same, a, b)
    ensures ComesBack(known, same, imp) <==> imp.mod in known && exists x :: LeadsBack(known, edges, imp, x)
  {
    hide Reach, LoadGraph, IsParent;
    if ComesBack(known, same, imp) {
      var t :| AddsTarget(imp, t) && imp.mod in known && LoadsModule(known, same, Named(imp.mod), t, imp.mod);
      MoreEdgesMoreLoads(known, same, edges, Named(imp.mod), t, imp.mod);
      var r :| BeginsAt(known, Named(imp.mod), t, r) && Reach(LoadGraph(known, edges, Named(imp.mod)), r, imp.mod);
      assert LeadsBack(known, edges, imp, r);
    }
    if x :| imp.mod in known && LeadsBack(known, edges, imp, x) {
      var t :| AddsTarget(imp, t) && (x == t || IsParent(x, t));
      ParentLoadsLess(known, edges, Named(imp.mod), t, x, imp.mod);
      MoreEdgesMoreLoads(known, edges, same, Named(imp.mod), t, imp.mod);
    }
  }
}

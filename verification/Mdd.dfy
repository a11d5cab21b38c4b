/** The call-graph passes at the end of mdd.py: depth assignment by repeated sweeps, and the
    closure of the calls among functions left without a depth. */
module CallGraph {
  import opened Text

  type Name = string
  /** `functionCalls`: the names each known function calls. */
  type Graph = map<Name, set<Name>>

  const BIG := 1000000

  /** Calls to other known functions. */
  function Calls(g: Graph, f: Name): set<Name>
    requires f in g
  {
    set c | c in g[f] && c != f && c in g
  }

  /** A path of calls, each to another known function. */
  ghost predicate Chain(g: Graph, p: seq<Name>) {
    && p != [] && (forall i :: 0 <= i < |p| ==> p[i] in g)
    && (forall i :: 0 <= i < |p| - 1 ==> p[i + 1] in g[p[i]] && p[i + 1] != p[i])
  }

  ghost predicate ChainFrom(g: Graph, f: Name, p: seq<Name>) {
    Chain(g, p) && p[0] == f
  }

  /** Some path of calls from `f` meets the same function twice. */
  ghost predicate ReachesCycle(g: Graph, f: Name) {
    exists p :: ChainFrom(g, f, p) && !Distinct(p)
  }

  /** `n` calls is the longest path from `f`. */
  ghost predicate LongestChain(g: Graph, f: Name, n: nat) {
    && (exists p :: ChainFrom(g, f, p) && |p| == n + 1)
    && (forall p :: ChainFrom(g, f, p) ==> |p| <= n + 1)
  }

  // ---------------------------------------------------------------- depths

  /** The depth recorded for `f` is one more than the largest among the functions it calls. */
  ghost predicate Level(g: Graph, depth: map<Name, nat>, f: Name)
    requires f in g && f in depth
  {
    && Calls(g, f) <= depth.Keys
    && (forall c :: c in Calls(g, f) ==> depth[c] < depth[f])
    && (depth[f] > 0 ==> exists c :: c in Calls(g, f) && depth[c] == depth[f] - 1)
  }

  ghost predicate Levels(g: Graph, depth: map<Name, nat>) {
    && depth.Keys <= g.Keys
    && (forall f :: f in depth ==> depth[f] < |depth| && Level(g, depth, f))
  }

  /** Nobody without a depth could be given one. */
  ghost predicate Finished(g: Graph, depth: map<Name, nat>) {
    forall f :: f in g && f !in depth ==> !(Calls(g, f) <= depth.Keys)
  }

  lemma ConsChain(g: Graph, f: Name, p: seq<Name>)
    requires f in g && Chain(g, p) && p[0] in Calls(g, f)
    ensures ChainFrom(g, f, [f] + p)
  {
    var q := [f] + p;
    forall i | 0 <= i < |q| - 1 ensures q[i + 1] in Calls(g, q[i]) {
      if i > 0 { assert q[i] == p[i - 1] && q[i + 1] == p[i]; }
    }
  }

  lemma {:induction false} DepthIsReached(g: Graph, depth: map<Name, nat>, f: Name) returns (p: seq<Name>)
    requires Levels(g, depth) && f in depth
    ensures ChainFrom(g, f, p) && |p| == depth[f] + 1
    decreases depth[f]
  {
    if depth[f] == 0 {
      p := [f];
    } else {
      assert Level(g, depth, f);
      var c :| c in Calls(g, f) && depth[c] == depth[f] - 1;
      var q := DepthIsReached(g, depth, c);
      ConsChain(g, f, q);
      p := [f] + q;
    }
  }

  /** Depths strictly fall along any path that starts at a function with a depth. */
  lemma {:induction false} DepthFalls(g: Graph, depth: map<Name, nat>, p: seq<Name>, i: nat)
    requires Levels(g, depth) && Chain(g, p) && p[0] in depth && i < |p|
    ensures p[i] in depth && depth[p[i]] + i <= depth[p[0]]
    ensures forall j :: 0 <= j < i ==> p[j] in depth && depth[p[j]] > depth[p[i]]
  {
    if i > 0 {
      DepthFalls(g, depth, p, i - 1);
      assert Level(g, depth, p[i - 1]);
      assert p[i - 1 + 1] in Calls(g, p[i - 1]);
    }
  }

  lemma DepthIsLongest(g: Graph, depth: map<Name, nat>, f: Name)
    requires Levels(g, depth) && f in depth
    ensures LongestChain(g, f, depth[f]) && !ReachesCycle(g, f)
  {
    var p := DepthIsReached(g, depth, f);
    assert ChainFrom(g, f, p) && |p| == depth[f] + 1;
    forall q | ChainFrom(g, f, q) ensures |q| <= depth[f] + 1 && Distinct(q) {
      DepthFalls(g, depth, q, |q| - 1);
      forall i, j | 0 <= i < j < |q| ensures q[i] != q[j] { DepthFalls(g, depth, q, j); }
    }
  }

  lemma {:induction false} LongChain(g: Graph, depth: map<Name, nat>, f: Name, n: nat) returns (p: seq<Name>)
    requires Finished(g, depth) && f in g && f !in depth
    ensures ChainFrom(g, f, p) && |p| == n + 1
    decreases n
  {
    if n == 0 {
      p := [f];
    } else {
      assert !(Calls(g, f) <= depth.Keys);
      var c :| c in Calls(g, f) && c !in depth;
      var q := LongChain(g, depth, c, n - 1);
      ConsChain(g, f, q);
      p := [f] + q;
    }
  }

  lemma {:induction false} DistinctFits(p: seq<Name>, s: set<Name>)
    requires Distinct(p) && forall x :: x in p ==> x in s
    ensures |p| <= |s|
  {
    if p != [] {
      assert p == [p[0]] + p[1..];
      assert forall x :: x in p[1..] ==> x != p[0];
      DistinctFits(p[1..], s - {p[0]});
    }
  }

  lemma UndeepReachesCycle(g: Graph, depth: map<Name, nat>, f: Name)
    requires Finished(g, depth) && f in g && f !in depth
    ensures ReachesCycle(g, f)
  {
    var p := LongChain(g, depth, f, |g|);
    if Distinct(p) { DistinctFits(p, g.Keys); }
  }

  /** What the topological sort is for: a function gets a depth exactly when no path of calls from
      it runs into a cycle other than a self-call, and the depth is its longest such path. */
  ghost predicate Stratified(g: Graph, depth: map<Name, nat>) {
    && depth.Keys <= g.Keys
    && (forall f :: f in g ==> (f in depth <==> !ReachesCycle(g, f)))
    && (forall f :: f in depth ==> LongestChain(g, f, depth[f]))
  }

  lemma SweepsStratify(g: Graph, depth: map<Name, nat>)
    requires Levels(g, depth) && Finished(g, depth)
    ensures Stratified(g, depth)
  {
    forall f | f in g
      ensures f in depth <==> !ReachesCycle(g, f)
      ensures f in depth ==> LongestChain(g, f, depth[f])
    {
      if f in depth { DepthIsLongest(g, depth, f); } else { UndeepReachesCycle(g, depth, f); }
    }
  }

  /** `max` of the recorded depths, a missing one counting as `BIG`. */
  method MaxDepth(depth: map<Name, nat>, called: set<Name>) returns (m: nat)
    requires called != {} && forall c :: c in depth ==> depth[c] < BIG
    ensures m < BIG <==> called <= depth.Keys
    ensures m < BIG ==> (forall c :: c in called ==> depth[c] <= m) && exists c :: c in called && depth[c] == m
  {
    m := 0;
    var todo := called;
    while todo != {}
      invariant todo <= called
      invariant m < BIG ==> forall c :: c in called - todo ==> c in depth && depth[c] <= m
      invariant m < BIG && todo != called ==> exists c :: c in called - todo && depth[c] == m
      invariant m >= BIG ==> exists c :: c in called && c !in depth
      invariant todo == called ==> m == 0
    {
      var c :| c in todo;
      var d := if c in depth then depth[c] else BIG;
      todo := todo - {c};
      assert c in called - todo;
      if d >= m {
        m := d;
      }
    }
  }

  lemma LevelStays(g: Graph, depth: map<Name, nat>, f: Name, d: nat, h: Name)
    requires h in g && h in depth && f !in depth && Level(g, depth, h)
    ensures Level(g, depth[f := d], h)
  {
    hide Calls;
    if depth[h] > 0 {
      var c :| c in Calls(g, h) && depth[c] == depth[h] - 1;
      assert depth[f := d][c] == depth[c];
    }
  }

  lemma AddLevel(g: Graph, depth: map<Name, nat>, f: Name, d: nat)
    requires Levels(g, depth) && f in g && f !in depth && Calls(g, f) <= depth.Keys
    requires forall c :: c in Calls(g, f) ==> depth[c] < d
    requires d > 0 ==> exists c :: c in Calls(g, f) && depth[c] == d - 1
    ensures Levels(g, depth[f := d])
  {
    hide Level, Calls;
    NewLevel(g, depth, f, d);
    var more := depth[f := d];
    assert more.Keys == depth.Keys + {f};
    assert |more| == |depth| + 1;
    forall h | h in more ensures more[h] < |more| && Level(g, more, h) {
      if h != f { LevelStays(g, depth, f, d, h); }
    }
  }

  lemma NewLevel(g: Graph, depth: map<Name, nat>, f: Name, d: nat)
    requires Levels(g, depth) && f in g && f !in depth && Calls(g, f) <= depth.Keys
    requires forall c :: c in Calls(g, f) ==> depth[c] < d
    requires d > 0 ==> exists c :: c in Calls(g, f) && depth[c] == d - 1
    ensures Level(g, depth[f := d], f) && d <= |depth|
  {
    hide Calls;
    if d > 0 {
      var c :| c in Calls(g, f) && depth[c] == d - 1;
      assert depth[f := d][c] == d - 1;
    }
  }

  lemma DepthsFit(g: Graph, depth: map<Name, nat>)
    requires Levels(g, depth) && |g| <= BIG
    ensures forall f :: f in depth ==> depth[f] < BIG
  {
    SubsetCount(depth.Keys, g.Keys);
  }

  lemma {:induction false} SubsetCount(a: set<Name>, b: set<Name>)
    requires a <= b
    ensures |a| <= |b|
  {
    assert b == a + (b - a);
  }

  /** One function's turn in a sweep. */
  method Visit(g: Graph, depth0: map<Name, nat>, f: Name) returns (depth: map<Name, nat>, changed: bool)
    requires Levels(g, depth0) && f in g && |g| <= BIG
    ensures Levels(g, depth)
    ensures changed ==> f !in depth0 && depth.Keys == depth0.Keys + {f}
    ensures !changed ==> depth == depth0 && (f in depth || !(Calls(g, f) <= depth.Keys))
  {
    hide Levels, Calls;
    DepthsFit(g, depth0);
    depth, changed := depth0, false;
    if f in depth {
      return;
    }
    var called := Calls(g, f);
    if called == {} {
      AddLevel(g, depth, f, 0);
      depth, changed := depth[f := 0], true;
      return;
    }
    var m := MaxDepth(depth, called);
    if m < BIG {
      AddLevel(g, depth, f, m + 1);
      depth, changed := depth[f := m + 1], true;
    }
  }

  /** One sweep over all the names; `any` tells whether somebody was given a depth. */
  method DepthSweep(g: Graph, names: seq<Name>, depth0: map<Name, nat>) returns (depth: map<Name, nat>, any: bool)
    requires Elements(names) == g.Keys && |g| <= BIG && Levels(g, depth0)
    ensures Levels(g, depth)
    ensures any ==> depth0.Keys < depth.Keys <= g.Keys
    ensures !any ==> depth == depth0 && Finished(g, depth)
  {
    depth, any := depth0, false;
    hide Levels, Calls;
    for i := 0 to |names|
      invariant Levels(g, depth)
      invariant any ==> depth0.Keys < depth.Keys
      invariant !any ==> depth == depth0
      invariant !any ==> forall k :: 0 <= k < i ==> names[k] in depth || !(Calls(g, names[k]) <= depth.Keys)
    {
      assert names[i] in Elements(names);
      var changed;
      depth, changed := Visit(g, depth, names[i]);
      any := any || changed;
    }
    KnownNames(g, depth);
    if !any {
      forall f | f in g && f !in depth ensures !(Calls(g, f) <= depth.Keys) {
        assert f in Elements(names);
      }
    }
  }

  lemma KnownNames(g: Graph, depth: map<Name, nat>)
    requires Levels(g, depth)
    ensures depth.Keys <= g.Keys
  {
  }

  /** The sweeps of the topological sort, until one changes nothing. */
  method AssignDepths(g: Graph, names: seq<Name>) returns (depth: map<Name, nat>)
    requires Elements(names) == g.Keys && |g| <= 1000000
    ensures Stratified(g, depth)
  {
    depth := map[];
    var any := true;
    while any
      invariant Levels(g, depth)
      invariant !any ==> Finished(g, depth)
      decreases g.Keys - depth.Keys, any
    {
      depth, any := DepthSweep(g, names, depth);
    }
    SweepsStratify(g, depth);
  }

  // ---------------------------------------------------------------- closure

  /** Calls among the functions of `u`, the ones without a depth. */
  function Within(g: Graph, u: set<Name>, f: Name): set<Name>
    requires f in g
  {
    Calls(g, f) * u
  }

  ghost predicate Walk(g: Graph, u: set<Name>, p: seq<Name>) {
    && |p| >= 2 && (forall i :: 0 <= i < |p| ==> p[i] in g && p[i] in u)
    && (forall i :: 0 <= i < |p| - 1 ==> p[i + 1] in g[p[i]] && p[i + 1] != p[i])
  }

  /** `t` can be reached from `f` by one or more non-self calls among the functions of `u`. */
  ghost predicate Reaches(g: Graph, u: set<Name>, f: Name, t: Name) {
    exists p :: Walk(g, u, p) && p[0] == f && p[|p| - 1] == t
  }

  ghost predicate Sound(g: Graph, u: set<Name>, cyc: map<Name, set<Name>>) {
    && cyc.Keys == u && u <= g.Keys
    && (forall f :: f in u ==> Within(g, u, f) <= cyc[f] <= u)
    && (forall f, t :: f in u && t in cyc[f] ==> Reaches(g, u, f, t))
  }

  ghost predicate Closed(u: set<Name>, cyc: map<Name, set<Name>>)
    requires cyc.Keys == u
  {
    forall f, c :: f in u && c in cyc[f] && c in u ==> cyc[c] <= cyc[f]
  }

  lemma ReachesTransitive(g: Graph, u: set<Name>, a: Name, b: Name, c: Name)
    requires Reaches(g, u, a, b) && Reaches(g, u, b, c)
    ensures Reaches(g, u, a, c)
  {
    var p :| Walk(g, u, p) && p[0] == a && p[|p| - 1] == b;
    var q :| Walk(g, u, q) && q[0] == b && q[|q| - 1] == c;
    var r := p + q[1..];
    forall i | 0 <= i < |r| - 1 ensures r[i + 1] in Within(g, u, r[i]) {
      if i >= |p| - 1 { assert r[i] == q[i - |p| + 1] && r[i + 1] == q[i - |p| + 2]; }
    }
    assert Walk(g, u, r);
  }

  lemma StepReaches(g: Graph, u: set<Name>, f: Name, c: Name)
    requires f in g && f in u && c in g && c in Within(g, u, f)
    ensures Reaches(g, u, f, c)
  {
    assert Walk(g, u, [f, c]);
  }

  lemma {:induction false} ClosedCoversWalk(g: Graph, u: set<Name>, cyc: map<Name, set<Name>>, p: seq<Name>, i: nat)
    requires Sound(g, u, cyc) && Closed(u, cyc) && Walk(g, u, p) && 1 <= i < |p|
    ensures p[i] in cyc[p[0]]
  {
    assert p[i - 1 + 1] in Within(g, u, p[i - 1]);
    if i > 1 { ClosedCoversWalk(g, u, cyc, p, i - 1); }
  }

  /** At the fixpoint each set is exactly what can be reached. */
  lemma ClosureIsReachability(g: Graph, u: set<Name>, cyc: map<Name, set<Name>>)
    requires Sound(g, u, cyc) && Closed(u, cyc)
    ensures forall f, t :: f in u ==> (t in cyc[f] <==> Reaches(g, u, f, t))
  {
    forall f, t | f in u && Reaches(g, u, f, t) ensures t in cyc[f] {
      var p :| Walk(g, u, p) && p[0] == f && p[|p| - 1] == t;
      ClosedCoversWalk(g, u, cyc, p, |p| - 1);
    }
  }

  ghost function Pairs(cyc: map<Name, set<Name>>): set<(Name, Name)> {
    set f, c | f in cyc && c in cyc[f] :: (f, c)
  }

  ghost function AllPairs(u: set<Name>): set<(Name, Name)> {
    set f, c | f in u && c in u :: (f, c)
  }

  lemma UnionSound(g: Graph, u: set<Name>, cyc: map<Name, set<Name>>, f: Name, c: Name)
    requires Sound(g, u, cyc) && f in u && c in u && Reaches(g, u, f, c)
    ensures Sound(g, u, cyc[f := cyc[f] + cyc[c]])
  {
    var more := cyc[f := cyc[f] + cyc[c]];
    forall h, t | h in u && t in more[h] ensures Reaches(g, u, h, t) {
      if t !in cyc[h] { ReachesTransitive(g, u, f, c, t); }
    }
  }

  lemma PairsGrow(u: set<Name>, a: map<Name, set<Name>>, b: map<Name, set<Name>>)
    requires a.Keys == b.Keys == u && forall f :: f in u ==> a[f] <= b[f] <= u
    ensures AllPairs(u) - Pairs(b) <= AllPairs(u) - Pairs(a)
    ensures a != b ==> AllPairs(u) - Pairs(b) < AllPairs(u) - Pairs(a)
  {
    if a != b {
      var f :| f in u && a[f] != b[f];
      var c :| c in b[f] && c !in a[f];
      assert (f, c) in Pairs(b) && (f, c) !in Pairs(a);
    }
  }

  /** One function's turn: the sets of everything it calls are poured into its own. */
  method Absorb(g: Graph, u: set<Name>, cyc0: map<Name, set<Name>>, f: Name) returns (cyc: map<Name, set<Name>>)
    requires Sound(g, u, cyc0) && f in u
    ensures Sound(g, u, cyc) && forall h :: h in u ==> cyc0[h] <= cyc[h]
    ensures forall h :: h in u && h != f ==> cyc[h] == cyc0[h]
    ensures forall c :: c in cyc0[f] ==> cyc0[c] <= cyc[f]
  {
    cyc := cyc0;
    var todo := cyc0[f];
    while todo != {}
      invariant todo <= cyc0[f] && Sound(g, u, cyc)
      invariant forall h :: h in u ==> cyc0[h] <= cyc[h]
      invariant forall h :: h in u && h != f ==> cyc[h] == cyc0[h]
      invariant forall c :: c in cyc0[f] - todo ==> cyc0[c] <= cyc[f]
    {
      var c :| c in todo;
      UnionSound(g, u, cyc, f, c);
      cyc := cyc[f := cyc[f] + cyc[c]];
      todo := todo - {c};
    }
  }

  lemma SameSize(a: set<Name>, b: set<Name>)
    requires a <= b
    ensures |a| == |b| ==> a == b
  {
    assert b == a + (b - a);
  }

  /** One sweep over all the functions; `any` tells whether a set grew. */
  method Sweep(g: Graph, u: set<Name>, cyc0: map<Name, set<Name>>) returns (cyc: map<Name, set<Name>>, any: bool)
    requires Sound(g, u, cyc0)
    ensures Sound(g, u, cyc) && forall h :: h in u ==> cyc0[h] <= cyc[h]
    ensures any <==> cyc != cyc0
    ensures !any ==> Closed(u, cyc)
  {
    cyc, any := cyc0, false;
    var todo := u;
    while todo != {}
      invariant todo <= u && Sound(g, u, cyc)
      invariant forall h :: h in u ==> cyc0[h] <= cyc[h]
      invariant any <==> cyc != cyc0
      invariant !any ==> forall f, c :: f in u - todo && c in cyc[f] && c in u ==> cyc[c] <= cyc[f]
    {
      var f :| f in todo;
      var size := |cyc[f]|;
      hide Sound;
      var next := Absorb(g, u, cyc, f);
      SameSize(cyc[f], next[f]);
      if |next[f]| != size {
        any := true;
        assert cyc0[f] <= cyc[f] <= next[f] && cyc[f] != next[f];
        assert next[f] != cyc0[f];
      } else {
        assert next == cyc;
      }
      cyc := next;
      todo := todo - {f};
    }
  }

  /** The closure of the calls among functions without a depth. */
  method CloseCalls(g: Graph, depth: map<Name, nat>) returns (cyc: map<Name, set<Name>>)
    requires depth.Keys <= g.Keys
    ensures var u := g.Keys - depth.Keys;
      cyc.Keys == u && forall f, t :: f in u ==> (t in cyc[f] <==> Reaches(g, u, f, t))
  {
    var u := g.Keys - depth.Keys;
    cyc := map f | f in u :: Within(g, u, f);
    forall f, t | f in u && t in cyc[f] ensures Reaches(g, u, f, t) { StepReaches(g, u, f, t); }
    var any := true;
    while any
      invariant Sound(g, u, cyc)
      invariant !any ==> Closed(u, cyc)
      decreases AllPairs(u) - Pairs(cyc), any
    {
      ghost var before := cyc;
      cyc, any := Sweep(g, u, cyc);
      PairsGrow(u, before, cyc);
    }
    ClosureIsReachability(g, u, cyc);
  }
}

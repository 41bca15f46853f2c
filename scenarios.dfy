/** The behaviour test/tests.cpp checks, as client code of the arena: each method builds
    the test's graph on a fresh engine with the engine's own operations and promises the
    values and counts the test expects. */
module RxScenarios {
  import opened Waves
  import opened Outputs
  import opened RxGraph
  import opened RxLaws
  import opened RxCoherence
  import opened RxArena

  function Times10(x: int): int { x * 10 }
  function Times100(x: int): int { x * 100 }

  /** The graph of "Rx values react to Var changes": source 0 holding v, node 1 mapping
      it by Times10, node 2 by Times100, no observer. */
  ghost predicate TwoMaps(g: Graph, v: int) {
    && Inv(g) && NoEffects(g) && WavesBelow(g)
    && |g.nodes| == 3 && g.alive == {0, 1, 2}
    && g.nodes[0].kind == Source && g.nodes[0].value == v
    && g.nodes[1].kind == Computed([0], Unary(Times10))
    && g.nodes[2].kind == Computed([0], Unary(Times100))
  }

  /** Reading node 1 then node 2 gives 10v and 100v and keeps the shape. */
  lemma ReadTwoMaps(g: Graph, v: int)
    requires TwoMaps(g, v)
    ensures var (x, g1) := Now(g, 1);
      && x == 10 * v && TwoMaps(g1, v) && g1.counter == g.counter
      && Now(g1, 2).0 == 100 * v && TwoMaps(Now(g1, 2).1, v) && Now(g1, 2).1.counter == g.counter
  {
    var (x, g1) := Now(g, 1);
    NowCorrect(g, 1);
    NowKeepsWaves(g, 1);
    DenoteMapped(g, 1, 0, Times10);
    NowCorrect(g1, 2);
    NowKeepsWaves(g1, 2);
    DenoteMapped(g1, 2, 0, Times100);
  }

  /** The graph of "Rx values react to Var changes", built on a fresh engine. */
  method NewTwoMaps() returns (e: Arena)
    ensures fresh(e) && e.Valid() && TwoMaps(e.Model(), 1) && e.counter == 1
  {
    e := new Arena();
    EmptyInv();
    ghost var g := e.Model();
    var a := e.NewVar(1);
    NewVarKeepsInv(g, 1);
    g := e.Model();
    var r1 := e.Map(a, Times10);
    ReduceKeepsInv(g, [a], Unary(Times10));
    ReduceRegisters(g, [a], Unary(Times10));
    g := e.Model();
    var r2 := e.Map(a, Times100);
    ReduceKeepsInv(g, [a], Unary(Times100));
    ReduceRegisters(g, [a], Unary(Times100));
  }

  /** One set of the source of TwoMaps, before wrap-around. */
  method SetTwoMaps(e: Arena, ghost u: int, v: int)
    requires e.Valid() && TwoMaps(e.Model(), u) && 0 < e.counter < 250
    modifies e
    ensures e.Valid() && TwoMaps(e.Model(), v) && 0 < e.counter <= old(e.counter) + 1
  {
    ghost var g := e.Model();
    e.Set(0, v);
    SetKeepsInv(g, 0, v);
    SetShape(g, 0, v);
    SetOneWave(g, 0, v);
  }

  /** Both reads of TwoMaps. */
  method ReadBoth(e: Arena, ghost v: int) returns (x: int, y: int)
    requires e.Valid() && TwoMaps(e.Model(), v)
    modifies e
    ensures e.Valid() && TwoMaps(e.Model(), v) && e.counter == old(e.counter)
    ensures x == 10 * v && y == 100 * v
  {
    ReadTwoMaps(e.Model(), v);
    x := e.Now(1);
    y := e.Now(2);
  }

  /** "Rx values react to Var changes": two maps over one source read 10 and 100, then
      20 and 200 after set(2), then 10 and 100 again after set(1). */
  method MapsFollowSource() returns (seen: seq<int>)
    ensures seen == [10, 100, 20, 200, 10, 100]
  {
    var e := NewTwoMaps();
    var x1, y1 := ReadBoth(e, 1);
    SetTwoMaps(e, 1, 2);
    var x2, y2 := ReadBoth(e, 2);
    SetTwoMaps(e, 2, 1);
    var x3, y3 := ReadBoth(e, 1);
    seen := [x1, y1, x2, y2, x3, y3];
  }

  /** "Vars can be set": a source reads 0, then 5 after set(5). */
  method VarsCanBeSet() returns (before: int, after: int)
    ensures before == 0 && after == 5
  {
    var e := new Arena();
    var a := e.NewVar(0);
    NowSource(e.Model(), a);
    before := e.Now(a);
    e.Set(a, 5);
    NowSource(e.Model(), a);
    after := e.Now(a);
  }

  /** Halving; the test's value / 2.0f on the even values it uses. */
  function Half(x: int): int { x / 2 }

  /** One map over one source holding v, no observer. */
  ghost predicate OneMap(g: Graph, fn: int -> int, v: int) {
    && Inv(g) && NoEffects(g) && WavesBelow(g)
    && |g.nodes| == 2 && g.alive == {0, 1}
    && g.nodes[0].kind == Source && g.nodes[0].value == v
    && g.nodes[1].kind == Computed([0], Unary(fn))
  }

  /** Reading the mapped node gives fn(v) and keeps the shape. */
  lemma ReadOneMap(g: Graph, fn: int -> int, v: int)
    requires OneMap(g, fn, v)
    ensures Now(g, 1).0 == fn(v) && OneMap(Now(g, 1).1, fn, v) && Now(g, 1).1.counter == g.counter
  {
    NowCorrect(g, 1);
    NowKeepsWaves(g, 1);
    DenoteMapped(g, 1, 0, fn);
  }

  /** "Var can be mapped to reactive variable": the half of 10 reads 5, and 10 after
      set(20). */
  method VarCanBeMapped() returns (seen: seq<int>)
    ensures seen == [5, 10]
  {
    var e := new Arena();
    EmptyInv();
    ghost var g := e.Model();
    var a := e.NewVar(10);
    NewVarKeepsInv(g, 10);
    g := e.Model();
    var r := e.Map(a, Half);
    ReduceKeepsInv(g, [a], Unary(Half));
    ReduceRegisters(g, [a], Unary(Half));
    assert OneMap(e.Model(), Half, 10) && e.counter == 1;
    ReadOneMap(e.Model(), Half, 10);
    var x1 := e.Now(r);
    g := e.Model();
    e.Set(a, 20);
    SetKeepsInv(g, a, 20);
    SetShape(g, a, 20);
    ReadOneMap(e.Model(), Half, 20);
    var x2 := e.Now(r);
    seen := [x1, x2];
  }

  function Times2(x: int): int { x * 2 }
  function Times3(x: int): int { x * 3 }

  /** "Observers out of scope get cleaned up": while the mapped handle exists the source
      counts one live weak output; once it is dropped, none. */
  method ObserversCleanedUp() returns (during: nat, afterDrop: nat)
    ensures during == 1 && afterDrop == 0
  {
    var e := new Arena();
    var a := e.NewVar(0);
    ghost var g := e.Model();
    var r := e.Map(a, Times2);
    ReduceDistinct(g, [a], Unary(Times2), 0);
    assert e.nodes[a].weak == [r];
    assert Compact([r], e.alive) == [r] by {
      assert [r][..0] == [];
    }
    during := e.NumObservers(a);
    assert |e.nodes| == 2 && e.nodes[0].kind == Source && e.nodes[1].kind == Computed([0], Unary(Times2));
    e.Drop(r);
    assert Compact([r], e.alive) == [] by {
      assert [r][..0] == [];
    }
    afterDrop := e.NumObservers(a);
  }

  function Product(args: seq<int>): int {
    if |args| == 2 then args[0] * args[1] else 0
  }

  /** The graph of "Rx values react to multiple Var changes": sources 0 and 1 holding u
      and v, node 2 their product, no observer. */
  ghost predicate ProductGraph(g: Graph, u: int, v: int) {
    && Inv(g) && NoEffects(g) && WavesBelow(g)
    && |g.nodes| == 3 && g.alive == {0, 1, 2}
    && g.nodes[0].kind == Source && g.nodes[0].value == u
    && g.nodes[1].kind == Source && g.nodes[1].value == v
    && g.nodes[2].kind == Computed([0, 1], Product)
  }

  lemma ReadProduct(g: Graph, u: int, v: int)
    requires ProductGraph(g, u, v)
    ensures Now(g, 2).0 == u * v && ProductGraph(Now(g, 2).1, u, v) && Now(g, 2).1.counter == g.counter
  {
    NowCorrect(g, 2);
    NowKeepsWaves(g, 2);
    DenoteReduced2(g, 2, 0, 1, Product);
  }

  lemma SetProduct(g: Graph, u: int, v: int, s: Id, x: int)
    requires ProductGraph(g, u, v) && NextId(g.counter).0 < 255 && s < 2
    ensures ProductGraph(Set(g, s, x), if s == 0 then x else u, if s == 1 then x else v)
    ensures Set(g, s, x).counter == if g.nodes[s].value == x then g.counter else NextId(g.counter).1
  {
    SetKeepsInv(g, s, x);
    SetShape(g, s, x);
  }

  /** The initial graph of that test: two fresh sources and their product. */
  lemma BuildProduct(g: Graph)
    requires g == Empty
    ensures var (a, g1) := NewVar(g, 1);
      var (b, g2) := NewVar(g1, 100);
      a == 0 && b == 1 && Reduce(g2, [a, b], Product).0 == 2 &&
      ProductGraph(Reduce(g2, [a, b], Product).1, 1, 100) && Reduce(g2, [a, b], Product).1.counter == 1
  {
    EmptyInv();
    var (a, g1) := NewVar(g, 1);
    NewVarKeepsInv(g, 1);
    var (b, g2) := NewVar(g1, 100);
    NewVarKeepsInv(g1, 100);
    ReduceKeepsInv(g2, [a, b], Product);
    ReduceRegisters(g2, [a, b], Product);
  }

  /** One step of that test: set source s to x. */
  method SetSource(e: Arena, s: Id, x: int, ghost u: int, ghost v: int, ghost u': int, ghost v': int)
    requires e.Valid() && ProductGraph(e.Model(), u, v) && 0 < e.counter < 250 && s < 2
    requires u' == (if s == 0 then x else u) && v' == (if s == 1 then x else v)
    modifies e
    ensures e.Valid() && ProductGraph(e.Model(), u', v') && 0 < e.counter <= old(e.counter) + 1
  {
    SetProduct(e.Model(), u, v, s, x);
    e.Set(s, x);
  }

  /** "Rx values react to multiple Var changes": the product of two sources reads 100,
      then 200, 2000 and 40000 as the sources change. */
  method ProductFollowsSources() returns (seen: seq<int>)
    ensures seen == [100, 200, 2000, 40000]
  {
    var e := new Arena();
    BuildProduct(e.Model());
    var a := e.NewVar(1);
    var b := e.NewVar(100);
    var r := e.Reduce([a, b], Product);
    ReadProduct(e.Model(), 1, 100);
    var x1 := e.Now(r);
    SetSource(e, a, 2, 1, 100, 2, 100);
    ReadProduct(e.Model(), 2, 100);
    var x2 := e.Now(r);
    SetSource(e, b, 1000, 2, 100, 2, 1000);
    ReadProduct(e.Model(), 2, 1000);
    var x3 := e.Now(r);
    SetSource(e, a, 4, 2, 1000, 4, 1000);
    SetSource(e, b, 10000, 4, 1000, 4, 10000);
    ReadProduct(e.Model(), 4, 10000);
    var x4 := e.Now(r);
    seen := [x1, x2, x3, x4];
  }

  /** The graph of "Var changes propagate through multiple Rx levels": source 0 holding
      v, node 1 = Times2 of it, node 2 = Times3 of node 1. */
  ghost predicate Chain(g: Graph, v: int) {
    && Inv(g) && NoEffects(g) && WavesBelow(g)
    && |g.nodes| == 3 && g.alive == {0, 1, 2}
    && g.nodes[0].kind == Source && g.nodes[0].value == v
    && g.nodes[1].kind == Computed([0], Unary(Times2))
    && g.nodes[2].kind == Computed([1], Unary(Times3))
  }

  lemma ReadChain(g: Graph, v: int, n: Id)
    requires Chain(g, v) && (n == 1 || n == 2)
    ensures Now(g, n).0 == (if n == 1 then 2 * v else 6 * v)
    ensures Chain(Now(g, n).1, v) && Now(g, n).1.counter == g.counter
  {
    NowCorrect(g, n);
    NowKeepsWaves(g, n);
    DenoteMapped(g, 1, 0, Times2);
    DenoteMapped(g, 2, 1, Times3);
  }

  /** "Var changes propagate through multiple Rx levels": r1 = 2x reads 2, r2 = 3 r1
      reads 6; after set(10), r2 reads 60 and r1 reads 20. */
  method ChainFollowsSource() returns (seen: seq<int>)
    ensures seen == [2, 6, 60, 20]
  {
    var e := new Arena();
    EmptyInv();
    ghost var g := e.Model();
    var a := e.NewVar(1);
    NewVarKeepsInv(g, 1);
    g := e.Model();
    var r1 := e.Map(a, Times2);
    ReduceKeepsInv(g, [a], Unary(Times2));
    ReduceRegisters(g, [a], Unary(Times2));
    g := e.Model();
    NowCorrect(g, r1);
    NowKeepsWaves(g, r1);
    DenoteMapped(g, r1, a, Times2);
    var x1 := e.Now(r1);
    g := e.Model();
    var r2 := e.Map(r1, Times3);
    ReduceKeepsInv(g, [r1], Unary(Times3));
    ReduceRegisters(g, [r1], Unary(Times3));
    assert Chain(e.Model(), 1) && e.counter == 1;
    ReadChain(e.Model(), 1, r2);
    var x2 := e.Now(r2);
    g := e.Model();
    e.Set(a, 10);
    SetKeepsInv(g, a, 10);
    SetShape(g, a, 10);
    assert Chain(e.Model(), 10);
    ReadChain(e.Model(), 10, r2);
    var x3 := e.Now(r2);
    ReadChain(e.Model(), 10, r1);
    var x4 := e.Now(r1);
    seen := [x1, x2, x3, x4];
  }

  /** "Changes are only calculated upon reading value": two sets evaluate nothing; the
      read that follows evaluates exactly once. */
  method OnlyReadsEvaluate() returns (atStart: nat, afterSets: nat, afterRead: nat)
    ensures afterSets == atStart && afterRead == atStart + 1
  {
    var e := new Arena();
    var a := e.NewVar(1);
    atStart := e.evals;
    ghost var g := e.Model();
    var r := e.Map(a, Times2);
    ReduceRegisters(g, [a], Unary(Times2));
    g := e.Model();
    assert NoEffects(g);
    e.Set(a, 2);
    SetLazy(g, a, 2);
    SetShape(g, a, 2);
    g := e.Model();
    assert NoEffects(g);
    e.Set(a, 3);
    SetLazy(g, a, 3);
    SetShape(g, a, 3);
    afterSets := e.evals;
    g := e.Model();
    assert !g.nodes[r].upToDate;
    NowEvaluates(g, r);
    assert Pull(g, r, [a], 0, []).1 == g by {
      assert Pull(g, r, [a], 1, [3]) == ([3], g);
    }
    var x := e.Now(r);
    afterRead := e.evals;
  }

  // ---------------------------------------------------------------------------------
  // Observers.

  /** Source 0 observed by observer 1, nothing else. */
  ghost predicate ObservedVar(g: Graph) {
    && WF(g) && |g.nodes| == 2 && g.alive == {0, 1}
    && g.nodes[0].kind == Source && g.nodes[0].weak == [] && g.nodes[0].sticky == [1]
    && g.nodes[1].kind == Effect(0)
  }

  /** A changing set of an observed source calls the effect once with the new value; an
      equal set calls nothing. */
  lemma SetObservedVar(g: Graph, v: int)
    requires ObservedVar(g)
    ensures ObservedVar(Set(g, 0, v))
    ensures Set(g, 0, v).log == g.log + if g.nodes[0].value == v then [] else [Fire(1, v)]
  {
    if g.nodes[0].value != v {
      var (w, c) := NextId(g.counter);
      var h := g.(nodes := g.nodes[0 := g.nodes[0].(value := v)], counter := c);
      assert WF(h) by {
        forall m | 0 <= m < |h.nodes| ensures EdgesUp(h.nodes, m) {
          assert EdgesUp(g.nodes, m);
        }
      }
      assert Targets(h, 0) == [1];
      ForwardToOne(h, 0, w, 1);
      assert Set(g, 0, v) == h.(log := g.log + [Fire(1, v)]);
    }
  }

  /** "Vars can be observed": registering fires nothing; set(10) fires once; set(1) and
      set(10) twice more. */
  method VarsCanBeObserved() returns (counts: seq<nat>)
    ensures counts == [0, 1, 3]
  {
    var e := new Arena();
    var a := e.NewVar(0);
    var o := e.Observe(a);
    assert ObservedVar(e.Model());
    var c0 := |e.log|;
    SetObserved(e, 10);
    var c1 := |e.log|;
    SetObserved(e, 1);
    SetObserved(e, 10);
    counts := [c0, c1, |e.log|];
  }

  /** One set of the source of ObservedVar. */
  method SetObserved(e: Arena, v: int)
    requires e.Valid() && ObservedVar(e.Model())
    modifies e
    ensures e.Valid() && ObservedVar(e.Model()) && e.nodes[0].value == v
    ensures e.log == old(e.log) + if old(e.nodes[0].value) == v then [] else [Fire(1, v)]
  {
    SetObservedVar(e.Model(), v);
    e.Set(0, v);
  }

  /** "Send signal only if variable changes": setting the value the source already holds
      fires nothing. */
  method EqualSetIsSilent() returns (counts: seq<nat>)
    ensures counts == [0, 0]
  {
    var e := new Arena();
    var a := e.NewVar(0);
    var o := e.Observe(a);
    var c0 := |e.log|;
    e.Set(a, 0);
    counts := [c0, |e.log|];
  }

  /** Source 0, node 1 mapping it by fn, observer 2 on node 1; node 1 has recorded no
      wave id the counter is about to hand out. */
  ghost predicate ObservedMap(g: Graph, fn: int -> int) {
    && WF(g) && |g.nodes| == 3 && g.alive == {0, 1, 2}
    && g.nodes[0].kind == Source && g.nodes[0].weak == [1] && g.nodes[0].sticky == []
    && g.nodes[1].kind == Computed([0], Unary(fn)) && g.nodes[1].weak == [] && g.nodes[1].sticky == [2]
    && g.nodes[2].kind == Effect(1)
    && g.nodes[1].lastWave < NextId(g.counter).0
  }

  /** The mapped node of ObservedMap receiving a new wave: it is invalidated, forwards to
      its observer, which reads it; so it is evaluated once and the effect gets fn(v). */
  lemma SignalObservedMap(h: Graph, fn: int -> int, v: int, w: int)
    requires WF(h) && |h.nodes| == 3 && h.alive == {0, 1, 2}
    requires h.nodes[0].kind == Source && h.nodes[0].value == v
    requires h.nodes[1].kind == Computed([0], Unary(fn)) && h.nodes[1].weak == [] && h.nodes[1].sticky == [2]
    requires h.nodes[2].kind == Effect(1) && h.nodes[1].lastWave != w
    ensures Signal(h, 1, w) == Cache(Invalidate(h, 1, w), 1, fn(v)).(log := h.log + [Fire(2, fn(v))])
  {
    var h1 := Invalidate(h, 1, w);
    assert WF(h1) by {
      forall m | 0 <= m < |h1.nodes| ensures EdgesUp(h1.nodes, m) {
        assert EdgesUp(h.nodes, m);
      }
    }
    assert Signal(h, 1, w) == Forward(h1, 1, w);
    assert Targets(h1, 1) == [2];
    ForwardToOne(h1, 1, w, 2);
    assert h1.nodes[0] == h.nodes[0] && 0 in [0] && [0][0] == 0;
    assert Now(h1, 0) == (v, h1);
    assert [] + [v] == [v];
    assert Pull(h1, 1, [0], 1, [v]) == ([v], h1);
    assert Pull(h1, 1, [0], 0, []) == ([v], h1);
    assert Now(h1, 1) == (fn(v), Cache(h1, 1, fn(v)));
  }

  /** The pass of a changing set of ObservedMap's source, from the source on. */
  lemma ObservedMapPass(h: Graph, fn: int -> int, v: int, w: int)
    requires WF(h) && |h.nodes| == 3 && h.alive == {0, 1, 2}
    requires h.nodes[0].kind == Source && h.nodes[0].value == v && h.nodes[0].weak == [1] && h.nodes[0].sticky == []
    requires h.nodes[1].kind == Computed([0], Unary(fn)) && h.nodes[1].weak == [] && h.nodes[1].sticky == [2]
    requires h.nodes[2].kind == Effect(1) && h.nodes[1].lastWave != w
    ensures Forward(h, 0, w) == Cache(Invalidate(h, 1, w), 1, fn(v)).(log := h.log + [Fire(2, fn(v))])
  {
    assert Compact([1], h.alive) == [1] by {
      assert [1][..0] == [];
    }
    assert Targets(h, 0) == [1];
    ForwardToOne(h, 0, w, 1);
    SignalObservedMap(h, fn, v, w);
  }

  /** A changing set reaches the observer of the mapped node once, with the mapped value
      of the new source value. */
  lemma SetObservedMap(g: Graph, fn: int -> int, v: int)
    requires ObservedMap(g, fn) && NextId(g.counter).0 < 255
    ensures ObservedMap(Set(g, 0, v), fn)
    ensures Set(g, 0, v).log == g.log + if g.nodes[0].value == v then [] else [Fire(2, fn(v))]
  {
    if g.nodes[0].value != v {
      var (w, c) := NextId(g.counter);
      var h := g.(nodes := g.nodes[0 := g.nodes[0].(value := v)], counter := c);
      assert WF(h) by {
        forall m | 0 <= m < |h.nodes| ensures EdgesUp(h.nodes, m) {
          assert EdgesUp(g.nodes, m);
        }
      }
      ObservedMapPass(h, fn, v, w);
      assert Set(g, 0, v) == Forward(h, 0, w);
      assert c == w + 1 && NextId(c).0 == w + 1;
    }
  }

  /** The graph of "Rxs can be observed", built from the empty engine. */
  lemma BuildObservedMap(g: Graph, fn: int -> int)
    requires g == Empty
    ensures var (a, g1) := NewVar(g, 0);
      var (r, g2) := Map(g1, a, fn);
      a == 0 && r == 1 && r in g2.alive && !g2.nodes[r].kind.Effect? &&
      Observe(g2, r).0 == 2 && ObservedMap(Observe(g2, r).1, fn) && Observe(g2, r).1.nodes[0].value == 0
  {
    var (a, g1) := NewVar(g, 0);
    ReduceDistinct(g1, [a], Unary(fn), 0);
    ReduceRegisters(g1, [a], Unary(fn));
    var (r, g2) := Map(g1, a, fn);
    ObserveRegisters(g2, r);
  }

  /** One set of the source of ObservedMap. */
  method SetMapped(e: Arena, ghost fn: int -> int, v: int)
    requires e.Valid() && ObservedMap(e.Model(), fn) && 0 < e.counter < 250
    modifies e
    ensures e.Valid() && ObservedMap(e.Model(), fn) && 0 < e.counter <= old(e.counter) + 1
    ensures e.log == old(e.log) + if old(e.nodes[0].value) == v then [] else [Fire(2, fn(v))]
    ensures e.nodes[0].value == v
  {
    SetObservedMap(e.Model(), fn, v);
    e.Set(0, v);
  }

  /** "Rxs can be observed": the observer of a mapped node fires once per changing set
      of the source: 0, 1, 3. */
  method RxCanBeObserved() returns (counts: seq<nat>)
    ensures counts == [0, 1, 3]
  {
    var e := new Arena();
    BuildObservedMap(e.Model(), Times10);
    var a := e.NewVar(0);
    var r := e.Map(a, Times10);
    var o := e.Observe(r);
    var c0 := |e.log|;
    SetMapped(e, Times10, 10);
    var c1 := |e.log|;
    SetMapped(e, Times10, 1);
    SetMapped(e, Times10, 10);
    counts := [c0, c1, |e.log|];
  }

  /** "Stop observing when reactive no longer in scope": the observer fires on set(1);
      once the mapped handle is gone, set(2) fires nothing. */
  method DroppedObserverIsSilent() returns (counts: seq<nat>)
    ensures counts == [1, 1]
  {
    var e := new Arena();
    BuildObservedMap(e.Model(), Times2);
    var a := e.NewVar(0);
    var r := e.Map(a, Times2);
    var o := e.Observe(r);
    SetMapped(e, Times2, 1);
    var c1 := |e.log|;
    e.Drop(r);
    ghost var g := e.Model();
    assert NoEffects(g);
    SetLazy(g, a, 2);
    e.Set(a, 2);
    counts := [c1, |e.log|];
  }

  // ---------------------------------------------------------------------------------
  // The diamond.

  function Times1(x: int): int { x * 1 }

  /** A diamond: source 0 (time), node 1 = fx of it (x), node 2 = fy of it (y), node 3
      joining x and y, observer 4 on node 3. */
  ghost predicate DiamondOf(g: Graph, fx: int -> int, fy: int -> int, join: seq<int> -> int) {
    && WF(g) && |g.nodes| == 5 && g.alive == {0, 1, 2, 3, 4}
    && g.nodes[0].kind == Source && g.nodes[0].weak == [1, 2] && g.nodes[0].sticky == []
    && g.nodes[1].kind == Computed([0], Unary(fx)) && g.nodes[1].weak == [3] && g.nodes[1].sticky == []
    && g.nodes[2].kind == Computed([0], Unary(fy)) && g.nodes[2].weak == [3] && g.nodes[2].sticky == []
    && g.nodes[3].kind == Computed([1, 2], join) && g.nodes[3].weak == [] && g.nodes[3].sticky == [4]
    && g.nodes[4].kind == Effect(3)
  }

  /** The graph of "A signal should pass through a Reactive only once": x = time * 10,
      y = time * 1, x * y. */
  ghost predicate Diamond(g: Graph) {
    DiamondOf(g, Times10, Times1, Product)
  }

  /** What y contributes when the join is read with time at v: its cache if it is up to
      date, otherwise its fresh value. */
  function YSeen(g: Graph, fy: int -> int, v: int): int
    requires |g.nodes| == 5
  {
    if g.nodes[2].upToDate then g.nodes[2].cache else fy(v)
  }

  /** Reading the join when x and the join are stale re-evaluates x, takes y as YSeen, and
      caches the joined value. */
  lemma DiamondRead(h: Graph, fx: int -> int, fy: int -> int, join: seq<int> -> int, v: int)
    requires WF(h) && |h.nodes| == 5
    requires h.nodes[0].kind == Source && h.nodes[0].value == v
    requires h.nodes[1].kind == Computed([0], Unary(fx)) && !h.nodes[1].upToDate
    requires h.nodes[2].kind == Computed([0], Unary(fy))
    requires h.nodes[3].kind == Computed([1, 2], join) && !h.nodes[3].upToDate
    ensures var (x, r) := Now(h, 3);
      && x == join([fx(v), YSeen(h, fy, v)])
      && r.nodes[1].upToDate && r.nodes[1].cache == fx(v)
      && r.nodes[2] == h.nodes[2].(upToDate := true, cache := YSeen(h, fy, v))
      && r.nodes[3].upToDate && r.nodes[3].cache == x
  {
    assert EdgesUp(h.nodes, 3) && 0 in [0] && [0][0] == 0 && [] + [v] == [v];
    assert Now(h, 0) == (v, h);
    assert Pull(h, 1, [0], 0, []) == ([v], h);
    var h3 := Cache(h, 1, fx(v));
    assert Now(h, 1) == (fx(v), h3);
    assert WF(h3) by {
      forall m | 0 <= m < |h3.nodes| ensures EdgesUp(h3.nodes, m) {
        assert EdgesUp(h.nodes, m);
      }
    }
    assert h3.nodes[0] == h.nodes[0] && h3.nodes[2] == h.nodes[2];
    assert Now(h3, 0) == (v, h3);
    assert Pull(h3, 2, [0], 0, []) == ([v], h3);
    var y := YSeen(h, fy, v);
    var h4 := if h.nodes[2].upToDate then h3 else Cache(h3, 2, y);
    assert Now(h3, 2) == (y, h4);
    assert [1, 2][0] == 1 && [1, 2][1] == 2 && [] + [fx(v)] + [y] == [fx(v), y];
    assert Pull(h, 3, [1, 2], 0, []) == ([fx(v), y], h4);
  }

  /** The pass reaching the join from x: the join is invalidated and forwards to the observer,
      which reads the join (re-evaluating x, and y unless it is up to date). */
  lemma DiamondJoin(h: Graph, fx: int -> int, fy: int -> int, join: seq<int> -> int, v: int, w: int)
    requires WF(h) && |h.nodes| == 5 && 3 in h.alive && 4 in h.alive
    requires h.nodes[0].kind == Source && h.nodes[0].value == v
    requires h.nodes[1].kind == Computed([0], Unary(fx)) && !h.nodes[1].upToDate
    requires h.nodes[2].kind == Computed([0], Unary(fy))
    requires h.nodes[3].kind == Computed([1, 2], join) && h.nodes[3].lastWave != w
    requires h.nodes[3].weak == [] && h.nodes[3].sticky == [4] && h.nodes[4].kind == Effect(3)
    ensures var a := Signal(h, 3, w);
      && a.log == h.log + [Fire(4, join([fx(v), YSeen(h, fy, v)]))]
      && a.nodes[2] == h.nodes[2].(upToDate := true, cache := YSeen(h, fy, v))
      && a.nodes[3].lastWave == w && a.nodes[3].upToDate && a.nodes[3].cache == join([fx(v), YSeen(h, fy, v)])
  {
    var h2 := Invalidate(h, 3, w);
    assert WF(h2) by {
      forall m | 0 <= m < |h2.nodes| ensures EdgesUp(h2.nodes, m) {
        assert EdgesUp(h.nodes, m);
      }
    }
    assert Signal(h, 3, w) == Forward(h2, 3, w);
    assert Targets(h2, 3) == [4];
    assert !HasExpired(h2, 3);
    ForwardToOne(h2, 3, w, 4);
    ObserverSignal(h2, 4, w);
    assert YSeen(h2, fy, v) == YSeen(h, fy, v);
    DiamondRead(h2, fx, fy, join, v);
  }

  /** The x branch of the pass: x is invalidated and forwards to the join. */
  lemma DiamondLeft(h: Graph, fx: int -> int, fy: int -> int, join: seq<int> -> int, v: int, w: int)
    requires WF(h) && |h.nodes| == 5 && 3 in h.alive && 4 in h.alive
    requires h.nodes[0].kind == Source && h.nodes[0].value == v
    requires h.nodes[1].kind == Computed([0], Unary(fx)) && h.nodes[1].lastWave != w
    requires h.nodes[1].weak == [3] && h.nodes[1].sticky == []
    requires h.nodes[2].kind == Computed([0], Unary(fy))
    requires h.nodes[3].kind == Computed([1, 2], join) && h.nodes[3].lastWave != w
    requires h.nodes[3].weak == [] && h.nodes[3].sticky == [4] && h.nodes[4].kind == Effect(3)
    ensures var a := Signal(h, 1, w);
      && a.log == h.log + [Fire(4, join([fx(v), YSeen(h, fy, v)]))]
      && a.nodes[2] == h.nodes[2].(upToDate := true, cache := YSeen(h, fy, v))
      && a.nodes[3].lastWave == w && a.nodes[3].upToDate && a.nodes[3].cache == join([fx(v), YSeen(h, fy, v)])
  {
    SignalHop(h, 1, w, 3);
    var h1 := Invalidate(h, 1, w);
    assert YSeen(h1, fy, v) == YSeen(h, fy, v);
    DiamondJoin(h1, fx, fy, join, v, w);
  }

  /** The y branch of the pass: y is invalidated and forwards to the join, which has already
      processed this wave and ignores it. */
  lemma DiamondRight(a: Graph, w: int)
    requires WF(a) && |a.nodes| == 5 && 3 in a.alive
    requires a.nodes[2].kind.Computed? && a.nodes[2].weak == [3] && a.nodes[2].sticky == [] && a.nodes[2].lastWave != w
    requires a.nodes[3].kind.Computed? && a.nodes[3].lastWave == w
    ensures Signal(a, 2, w) == Invalidate(a, 2, w)
  {
    SignalHop(a, 2, w, 3);
    SignalSameWave(Invalidate(a, 2, w), 3, w);
  }

  /** The pass of a changing set, starting at time. */
  lemma DiamondPass(h: Graph, fx: int -> int, fy: int -> int, join: seq<int> -> int, v: int, w: int)
    requires WF(h) && |h.nodes| == 5 && h.alive == {0, 1, 2, 3, 4}
    requires h.nodes[0].kind == Source && h.nodes[0].value == v
    requires h.nodes[0].weak == [1, 2] && h.nodes[0].sticky == []
    requires h.nodes[1].kind == Computed([0], Unary(fx)) && h.nodes[1].lastWave != w
    requires h.nodes[1].weak == [3] && h.nodes[1].sticky == []
    requires h.nodes[2].kind == Computed([0], Unary(fy)) && h.nodes[2].lastWave != w
    requires h.nodes[2].weak == [3] && h.nodes[2].sticky == []
    requires h.nodes[3].kind == Computed([1, 2], join) && h.nodes[3].lastWave != w
    requires h.nodes[3].weak == [] && h.nodes[3].sticky == [4] && h.nodes[4].kind == Effect(3)
    ensures var r := Forward(h, 0, w);
      && r.log == h.log + [Fire(4, join([fx(v), YSeen(h, fy, v)]))]
      && r.nodes[3].upToDate && r.nodes[3].cache == join([fx(v), YSeen(h, fy, v)])
  {
    assert Compact([1, 2], h.alive) == [1, 2] by {
      assert [1, 2][..1] == [1] && [1][..0] == [];
    }
    assert Targets(h, 0) == [1, 2];
    assert !HasExpired(h, 0);
    ForwardToTwo(h, 0, w, 1, 2);
    DiamondLeft(h, fx, fy, join, v, w);
    DiamondRight(Signal(h, 1, w), w);
  }

  /** A changing set of time on the diamond calls the observer exactly once, with the join
      as read mid-pass, and leaves the join up to date with that value. */
  lemma SetDiamond(g: Graph, fx: int -> int, fy: int -> int, join: seq<int> -> int, v: int)
    requires DiamondOf(g, fx, fy, join) && g.nodes[0].value != v
    requires forall i :: 1 <= i <= 3 ==> g.nodes[i].lastWave != NextId(g.counter).0
    ensures Set(g, 0, v).log == g.log + [Fire(4, join([fx(v), YSeen(g, fy, v)]))]
    ensures Set(g, 0, v).nodes[3].upToDate && Set(g, 0, v).nodes[3].cache == join([fx(v), YSeen(g, fy, v)])
  {
    var (w, c) := NextId(g.counter);
    var h := g.(nodes := g.nodes[0 := g.nodes[0].(value := v)], counter := c);
    assert WF(h) by {
      forall m | 0 <= m < |h.nodes| ensures EdgesUp(h.nodes, m) {
        assert EdgesUp(g.nodes, m);
      }
    }
    assert Set(g, 0, v) == Forward(h, 0, w);
    assert YSeen(h, fy, v) == YSeen(g, fy, v);
    DiamondPass(h, fx, fy, join, v, w);
  }

  /** map(fn) over a live node i appends the mapped node and registers it, last, in the
      weak list of i. */
  lemma MapStep(g: Graph, i: Id, fn: int -> int)
    requires WF(g) && i < |g.nodes| && i in g.alive && !g.nodes[i].kind.Effect?
    ensures var (n, r) := Map(g, i, fn);
      && n == |g.nodes| && r.alive == g.alive + {n} && r.counter == g.counter && r.log == g.log
      && r.nodes == g.nodes[i := g.nodes[i].(weak := g.nodes[i].weak + [n])] + [Fresh(Computed([i], Unary(fn)), 0)]
  {
    ReduceDistinct(g, [i], Unary(fn), 0);
    ReduceRegisters(g, [i], Unary(fn));
    var (n, r) := Map(g, i, fn);
    assert multiset([i])[i] == 1;
    forall k | 0 <= k < n && k != i ensures r.nodes[k] == g.nodes[k] {
      assert multiset([i])[k] == 0;
    }
  }

  /** reduce(f) over two distinct live nodes appends the reduced node and registers it,
      last, in the weak lists of both. */
  lemma ReduceStep(g: Graph, a: Id, b: Id, f: seq<int> -> int)
    requires WF(g) && a < |g.nodes| && b < |g.nodes| && a != b && a in g.alive && b in g.alive
    requires !g.nodes[a].kind.Effect? && !g.nodes[b].kind.Effect?
    ensures var (n, r) := Reduce(g, [a, b], f);
      && n == |g.nodes| && r.alive == g.alive + {n} && r.counter == g.counter && r.log == g.log
      && r.nodes == g.nodes[a := g.nodes[a].(weak := g.nodes[a].weak + [n])]
                          [b := g.nodes[b].(weak := g.nodes[b].weak + [n])] + [Fresh(Computed([a, b], f), 0)]
  {
    ReduceDistinct(g, [a, b], f, 0);
    ReduceDistinct(g, [a, b], f, 1);
    ReduceRegisters(g, [a, b], f);
    var (n, r) := Reduce(g, [a, b], f);
    forall k | 0 <= k < n && k != a && k != b ensures r.nodes[k] == g.nodes[k] {
      assert multiset([a, b])[k] == 0;
    }
  }

  /** Builds the diamond from an empty engine: time = 0, x and y mapped from it, x * y
      reduced from both, and an observer on x * y. Nothing has been read yet. */
  method NewDiamond() returns (e: Arena)
    ensures fresh(e) && e.Valid() && Diamond(e.Model())
    ensures e.nodes[0].value == 0 && !e.nodes[2].upToDate && e.counter == 1 && e.log == []
    ensures forall i :: 0 <= i < 5 ==> e.nodes[i].lastWave == 0 && !e.nodes[i].upToDate
  {
    e := NewFork();
    ReduceStep(e.Model(), 1, 2, Product);
    var xy := e.Reduce([1, 2], Product);
    ObserveRegisters(e.Model(), xy);
    var o := e.Observe(xy);
  }

  /** The first half of the diamond: time = 0, and x and y mapped from it. */
  method NewFork() returns (e: Arena)
    ensures fresh(e) && e.Valid() && e.alive == {0, 1, 2} && e.counter == 1 && e.log == []
    ensures e.nodes == [Fresh(Source, 0).(weak := [1, 2]), Fresh(Computed([0], Unary(Times10)), 0),
                        Fresh(Computed([0], Unary(Times1)), 0)]
  {
    e := new Arena();
    var time := e.NewVar(0);
    MapStep(e.Model(), time, Times10);
    var x := e.Map(time, Times10);
    assert e.nodes[0] == Fresh(Source, 0).(weak := [1]) by {
      assert [] + [1] == [1];
    }
    MapStep(e.Model(), time, Times1);
    var y := e.Map(time, Times1);
    assert [1] + [2] == [1, 2];
  }

  /** "A signal should pass through a Reactive only once": the observer has not fired
      after construction and fires exactly once on set(1), although the wave reaches
      x * y along two paths. */
  method DiamondFiresOnce() returns (counts: seq<nat>)
    ensures counts == [0, 1]
  {
    var e := NewDiamond();
    var c0 := |e.log|;
    SetDiamond(e.Model(), Times10, Times1, Product, 1);
    e.Set(0, 1);
    counts := [c0, |e.log|];
  }

  /** Reading changes no structure, so the diamond stays a diamond. */
  lemma DiamondCaches(g: Graph, r: Graph)
    requires Diamond(g) && CachesOnly(g, r) && WF(r)
    ensures Diamond(r)
    ensures forall i :: 0 <= i < 5 ==> r.nodes[i].lastWave == g.nodes[i].lastWave && r.nodes[i].value == g.nodes[i].value
  {
    assert forall i :: 0 <= i < 5 ==> r.nodes[i] == g.nodes[i].(upToDate := r.nodes[i].upToDate, cache := r.nodes[i].cache);
  }

  /** x * y claiming to be up to date with 0 while time is 1 is not coherent: its value
      from scratch is 10. */
  lemma StaleJoin(m: Graph)
    requires WF(m) && |m.nodes| == 5 && 3 in m.alive
    requires m.nodes[0].kind == Source && m.nodes[0].value == 1
    requires m.nodes[1].kind == Computed([0], Unary(Times10))
    requires m.nodes[2].kind == Computed([0], Unary(Times1))
    requires m.nodes[3].kind == Computed([1, 2], Product) && m.nodes[3].upToDate && m.nodes[3].cache == 0
    ensures Denote(m, 3) == 10 && !Coherent(m)
  {
    DenoteReduced2(m, 3, 1, 2, Product);
    DenoteMapped(m, 1, 0, Times10);
    DenoteMapped(m, 2, 0, Times1);
  }

  /** Reads x * y at time 0, then sets time to 1. */
  method ReadThenSet(e: Arena) returns (before: int)
    requires e.Valid() && Diamond(e.Model()) && e.nodes[0].value == 0 && e.counter == 1 && e.log == []
    requires forall i :: 0 <= i < 5 ==> e.nodes[i].lastWave == 0 && !e.nodes[i].upToDate
    modifies e
    ensures e.Valid() && |e.nodes| == 5 && 3 in e.alive && e.log == [Fire(4, 0)]
    ensures e.nodes[0].kind == Source && e.nodes[0].value == 1
    ensures e.nodes[1].kind == Computed([0], Unary(Times10)) && e.nodes[2].kind == Computed([0], Unary(Times1))
    ensures e.nodes[3].kind == Computed([1, 2], Product) && e.nodes[3].upToDate && e.nodes[3].cache == 0
  {
    ghost var g := e.Model();
    DiamondRead(g, Times10, Times1, Product, 0);
    before := e.Now(3);
    DiamondCaches(g, e.Model());
    ghost var h := e.Model();
    SetDiamond(h, Times10, Times1, Product, 1);
    SetShape(h, 0, 1);
    e.Set(0, 1);
  }

  /** The diamond read once at time 0 and then set to 1: the observer is called with
      10 * 1 * 0 = 0, because it reads x * y while y still holds its cache from time 0;
      x * y keeps that value as up to date, so a later read returns 0 while the inputs'
      current values give 10. */
  method DiamondGlitch() returns (e: Arena, fired: seq<Fire>, read: int)
    ensures e.Valid() && |e.nodes| == 5 && e.nodes[3].kind.Computed?
    ensures fired == [Fire(4, 0)] && read == 0 && Denote(e.Model(), 3) == 10
    ensures !Coherent(e.Model())
  {
    e := NewDiamond();
    var before := ReadThenSet(e);
    fired := e.log;
    StaleJoin(e.Model());
    NowCached(e.Model(), 3);
    read := e.Now(3);
  }
}

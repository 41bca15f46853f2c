/** The reactive graph as a value: an arena of nodes addressed by ids, and the pure
    functions that say what each engine operation does to it (rx.h). The class in
    arena.dfy implements each of these functions in place. */
module RxGraph {
  import opened Waves
  import opened Outputs

  type Id = nat

  /** What a node is: a source cell (VarNode), a computed node (RxNode) whose inputs it
      holds strongly and whose function combines the inputs' values, or an observer
      effect (ObserverNode) on one weakly held input. */
  datatype Kind =
    | Source
    | Computed(inputs: seq<Id>, f: seq<int> -> int)
    | Effect(input: Id)

  /** One arena slot. `weak` and `sticky` are Outputting's _outputs and _stickyOutputs;
      `value` is VarNode's _value; `lastWave`, `upToDate` and `cache` are RxNode's
      lastReceivedSignalId, upToDate and cachedValue. A field the node's kind does not
      have keeps its initial value. */
  datatype Node = Node(kind: Kind, weak: seq<Id>, sticky: seq<Id>, value: int,
                       lastWave: int, upToDate: bool, cache: int)

  /** One call of an observer's effect: which observer, with which value. */
  datatype Fire = Fire(observer: Id, value: int)

  /** The whole engine state: the arena, which nodes are still owned by someone, the
      wave counter (Signal::signalId), the log of effect calls and the debug
      evaluation counter RX_EVALUATE_COUNT. */
  datatype Graph = Graph(nodes: seq<Node>, alive: set<Id>, counter: int,
                         log: seq<Fire>, evals: nat)

  /** The graph the engine starts with: no node, counter at its initial value 1. */
  const Empty := Graph([], {}, 1, [], 0)

  /** Every edge of node n points the way combinators build it: outputs were created
      after n, inputs before it, and nothing reads from an observer. Weak outputs are
      computed nodes (reduce registers them) and sticky outputs are observers (observe
      registers them). */
  predicate EdgesUp(ns: seq<Node>, n: Id)
    requires n < |ns|
  {
    && (forall o :: o in ns[n].weak ==> n < o < |ns| && ns[o].kind.Computed?)
    && (forall o :: o in ns[n].sticky ==> n < o < |ns| && ns[o].kind.Effect?)
    && match ns[n].kind
       case Source => true
       case Computed(ins, _) => forall i :: i in ins ==> i < n && !ns[i].kind.Effect?
       case Effect(i) => i < n && !ns[i].kind.Effect?
  }

  predicate WF(g: Graph) {
    ValidCounter(g.counter) && forall n :: 0 <= n < |g.nodes| ==> EdgesUp(g.nodes, n)
  }

  /** Reading values changes only the computed nodes' caches and validity flags (and
      the evaluation counter). */
  ghost predicate CachesOnly(g: Graph, r: Graph) {
    && |r.nodes| == |g.nodes| && r.alive == g.alive && r.counter == g.counter
    && r.log == g.log && r.evals >= g.evals
    && forall i :: 0 <= i < |g.nodes| ==>
         r.nodes[i] == g.nodes[i].(upToDate := r.nodes[i].upToDate, cache := r.nodes[i].cache)
  }

  /** What a propagation pass may change. Kinds, sticky lists, source values, liveness
      and the counter stay; weak lists only lose expired entries; lastWave only becomes
      w; the effect log only grows. Below weakLo no weak list changes and below waveLo
      no lastWave changes. */
  ghost predicate Evolves(g: Graph, r: Graph, weakLo: nat, waveLo: nat, w: int) {
    && |r.nodes| == |g.nodes| && r.alive == g.alive && r.counter == g.counter
    && g.log <= r.log && r.evals >= g.evals
    && forall i :: 0 <= i < |g.nodes| ==>
         && r.nodes[i].kind == g.nodes[i].kind
         && r.nodes[i].sticky == g.nodes[i].sticky
         && r.nodes[i].value == g.nodes[i].value
         && (forall x :: x in r.nodes[i].weak ==> x in g.nodes[i].weak)
         && (forall x :: x in g.nodes[i].weak && x in g.alive ==> x in r.nodes[i].weak)
         && (i < weakLo ==> r.nodes[i].weak == g.nodes[i].weak)
         && (r.nodes[i].lastWave == g.nodes[i].lastWave || r.nodes[i].lastWave == w)
         && (i < waveLo ==> r.nodes[i].lastWave == g.nodes[i].lastWave)
  }

  lemma CachesOnlyWF(g: Graph, r: Graph)
    requires WF(g) && CachesOnly(g, r)
    ensures WF(r)
  {
    forall n | 0 <= n < |r.nodes| ensures EdgesUp(r.nodes, n) {
      assert EdgesUp(g.nodes, n);
    }
  }

  lemma CachesOnlyTrans(g: Graph, h: Graph, r: Graph)
    requires CachesOnly(g, h) && CachesOnly(h, r)
    ensures CachesOnly(g, r)
  {
  }

  lemma CachesOnlyEvolves(g: Graph, r: Graph, w: int)
    requires CachesOnly(g, r)
    ensures Evolves(g, r, |g.nodes|, |g.nodes|, w)
  {
    forall i | 0 <= i < |g.nodes|
      ensures r.nodes[i].kind == g.nodes[i].kind && r.nodes[i].weak == g.nodes[i].weak
      ensures r.nodes[i].lastWave == g.nodes[i].lastWave
    {
      assert r.nodes[i] == g.nodes[i].(upToDate := r.nodes[i].upToDate, cache := r.nodes[i].cache);
    }
  }

  lemma EvolvesWF(g: Graph, r: Graph, a: nat, b: nat, w: int)
    requires WF(g) && Evolves(g, r, a, b, w)
    ensures WF(r)
  {
    forall n | 0 <= n < |r.nodes| ensures EdgesUp(r.nodes, n) {
      assert EdgesUp(g.nodes, n);
    }
  }

  lemma EvolvesTrans(g: Graph, h: Graph, r: Graph, a1: nat, b1: nat, a2: nat, b2: nat, w: int)
    requires Evolves(g, h, a1, b1, w) && Evolves(h, r, a2, b2, w)
    ensures Evolves(g, r, if a1 < a2 then a1 else a2, if b1 < b2 then b1 else b2, w)
  {
  }

  // ---------------------------------------------------------------------------------
  // Pull: RxNode::now, evaluate and callFunc; VarNode::now.

  /** RxNode::now marks the node up to date with value v; RX_EVALUATE_COUNT += 1. */
  function Cache(g: Graph, n: Id, v: int): Graph
    requires n < |g.nodes|
  {
    g.(nodes := g.nodes[n := g.nodes[n].(upToDate := true, cache := v)], evals := g.evals + 1)
  }

  /** now() of node n: a source returns its stored value; a computed node returns its
      cache when up to date, and otherwise pulls its inputs' now(), applies its
      function, caches the result and becomes up to date. */
  function Now(g: Graph, n: Id): (res: (int, Graph))
    requires WF(g) && n < |g.nodes| && !g.nodes[n].kind.Effect?
    ensures CachesOnly(g, res.1) && WF(res.1)
    decreases n, 1
  {
    assert EdgesUp(g.nodes, n);
    match g.nodes[n].kind
    case Source => (g.nodes[n].value, g)
    case Computed(ins, f) =>
      if g.nodes[n].upToDate then (g.nodes[n].cache, g)
      else
        var (args, g1) := Pull(g, n, ins, 0, []);
        var v := f(args);
        var r := Cache(g1, n, v);
        CachesOnlyTrans(g, g1, r);
        CachesOnlyWF(g, r);
        (v, r)
  }

  /** callFunc's argument list: now() of inputs ins[i..], in order, appended to args. */
  function Pull(g: Graph, owner: Id, ins: seq<Id>, i: nat, args: seq<int>): (res: (seq<int>, Graph))
    requires WF(g) && owner < |g.nodes| && i <= |ins|
    requires forall x :: x in ins ==> x < owner && !g.nodes[x].kind.Effect?
    ensures CachesOnly(g, res.1) && WF(res.1)
    ensures |res.0| == |args| + |ins| - i
    decreases owner, 0, |ins| - i
  {
    if i == |ins| then (args, g)
    else
      assert ins[i] in ins;
      var (v, g1) := Now(g, ins[i]);
      var res := Pull(g1, owner, ins, i + 1, args + [v]);
      CachesOnlyTrans(g, g1, res.1);
      res
  }

  // ---------------------------------------------------------------------------------
  // Push: Routable::signal, Outputting::forwardSignal, ObserverNode::signal.

  /** Routable::signal on a new wave: record the id, then receivedSignal() clears
      upToDate. */
  function Invalidate(g: Graph, o: Id, w: int): Graph
    requires o < |g.nodes|
  {
    g.(nodes := g.nodes[o := g.nodes[o].(lastWave := w, upToDate := false)])
  }

  /** Outputting::_clean on node n. */
  function Clean(g: Graph, n: Id): Graph
    requires n < |g.nodes|
  {
    g.(nodes := g.nodes[n := g.nodes[n].(weak := Compact(g.nodes[n].weak, g.alive))])
  }

  /** _clean touches only node n's weak list, and only by dropping expired entries. */
  lemma CleanEvolves(g: Graph, n: Id, w: int)
    requires WF(g) && n < |g.nodes|
    ensures Evolves(g, Clean(g, n), n, |g.nodes|, w) && WF(Clean(g, n))
    ensures forall i :: 0 <= i < |g.nodes| && i != n ==> Clean(g, n).nodes[i] == g.nodes[i]
    ensures Clean(g, n).nodes[n] == g.nodes[n].(weak := Clean(g, n).nodes[n].weak)
    ensures Clean(g, n).alive == g.alive && Clean(g, n).counter == g.counter
    ensures Clean(g, n).log == g.log && Clean(g, n).evals == g.evals
  {
    EvolvesWF(g, Clean(g, n), n, |g.nodes|, w);
  }

  /** signal(w) delivered to node o. A computed node ignores the wave it processed last;
      otherwise it records w, invalidates and forwards. An observer has no dedup: if its
      input is alive it calls its effect with the input's now(). A source is never an
      output of anything, so it has nothing to do. */
  function Signal(g: Graph, o: Id, w: int): (r: Graph)
    requires WF(g) && o < |g.nodes|
    ensures WF(r) && Evolves(g, r, o, o, w)
    decreases |g.nodes| - o, 2
  {
    assert EdgesUp(g.nodes, o);
    match g.nodes[o].kind
    case Source => g
    case Effect(i) =>
      if i in g.alive then
        var (v, g1) := Now(g, i);
        var r := g1.(log := g1.log + [Fire(o, v)]);
        CachesOnlyEvolves(g, g1, w);
        r
      else g
    case Computed(_, _) =>
      if w == g.nodes[o].lastWave then g
      else
        var h := Invalidate(g, o, w);
        assert WF(h) by {
          forall n | 0 <= n < |h.nodes| ensures EdgesUp(h.nodes, n) {
            assert EdgesUp(g.nodes, n);
          }
        }
        var r := Forward(h, o, w);
        EvolvesTrans(g, h, r, o, o, o, o + 1, w);
        r
  }

  /** Outputting::forwardSignal on node n: signal every live weak output in list order,
      noting whether an expired one was seen, then every sticky output in list order,
      then compact the weak list if an expired entry was seen. */
  function Forward(g: Graph, n: Id, w: int): (r: Graph)
    requires WF(g) && n < |g.nodes|
    ensures WF(r) && Evolves(g, r, n, n + 1, w)
    decreases |g.nodes| - n, 1
  {
    assert EdgesUp(g.nodes, n);
    var (g1, expired) := SignalWeak(g, n, w, g.nodes[n].weak, 0, false);
    var g2 := SignalSticky(g1, n, w, g.nodes[n].sticky, 0);
    EvolvesTrans(g, g1, g2, n + 1, n + 1, n + 1, n + 1, w);
    if expired then
      var r := Clean(g2, n);
      CleanEvolves(g2, n, w);
      EvolvesTrans(g, g2, r, n + 1, n + 1, n, |g.nodes|, w);
      EvolvesWF(g, r, n, n + 1, w);
      r
    else g2
  }

  /** The first loop of forwardSignal, from position i of the weak list `outs`. */
  function SignalWeak(g: Graph, n: Id, w: int, outs: seq<Id>, i: nat, expired: bool): (res: (Graph, bool))
    requires WF(g) && n < |g.nodes| && i <= |outs|
    requires forall o :: o in outs ==> n < o < |g.nodes|
    ensures WF(res.0) && Evolves(g, res.0, n + 1, n + 1, w)
    ensures res.1 == (expired || exists j :: i <= j < |outs| && outs[j] !in g.alive)
    decreases |g.nodes| - n, 0, |outs| - i
  {
    if i == |outs| then (g, expired)
    else if outs[i] in g.alive then
      assert outs[i] in outs;
      var g1 := Signal(g, outs[i], w);
      var res := SignalWeak(g1, n, w, outs, i + 1, expired);
      EvolvesTrans(g, g1, res.0, outs[i], outs[i], n + 1, n + 1, w);
      res
    else
      SignalWeak(g, n, w, outs, i + 1, true)
  }

  /** The second loop of forwardSignal, from position i of the sticky list `outs`. */
  function SignalSticky(g: Graph, n: Id, w: int, outs: seq<Id>, i: nat): (r: Graph)
    requires WF(g) && n < |g.nodes| && i <= |outs|
    requires forall o :: o in outs ==> n < o < |g.nodes|
    ensures WF(r) && Evolves(g, r, n + 1, n + 1, w)
    decreases |g.nodes| - n, 0, |outs| - i
  {
    if i == |outs| then g
    else
      assert outs[i] in outs;
      var g1 := Signal(g, outs[i], w);
      var r := SignalSticky(g1, n, w, outs, i + 1);
      EvolvesTrans(g, g1, r, outs[i], outs[i], n + 1, n + 1, w);
      r
  }

  // ---------------------------------------------------------------------------------
  // Sources: VarNode::set.

  /** VarNode::set: an equal value changes nothing; a different value is stored, then
      one new wave id is allocated and forwarded from the source. */
  function Set(g: Graph, s: Id, v: int): (r: Graph)
    requires WF(g) && s < |g.nodes| && g.nodes[s].kind.Source?
    ensures WF(r)
    ensures |r.nodes| == |g.nodes| && r.alive == g.alive && r.nodes[s].value == v
    ensures g.nodes[s].value == v ==> r == g
    ensures g.nodes[s].value != v ==> r.counter == NextId(g.counter).1
  {
    if g.nodes[s].value == v then g
    else
      var (w, c) := NextId(g.counter);
      var h := g.(nodes := g.nodes[s := g.nodes[s].(value := v)], counter := c);
      assert WF(h) by {
        forall n | 0 <= n < |h.nodes| ensures EdgesUp(h.nodes, n) {
          assert EdgesUp(g.nodes, n);
        }
      }
      Forward(h, s, w)
  }

  // ---------------------------------------------------------------------------------
  // Construction: Var, ReactiveTuple::reduce, Reactive::map, Reactive::observe.

  /** Outputting::addOutput on node i. */
  function AddOutput(ns: seq<Node>, i: Id, o: Id): seq<Node>
    requires i < |ns|
  {
    ns[i := ns[i].(weak := ns[i].weak + [o])]
  }

  /** Outputting::addStickyOutput on node i. */
  function AddStickyOutput(ns: seq<Node>, i: Id, o: Id): seq<Node>
    requires i < |ns|
  {
    ns[i := ns[i].(sticky := ns[i].sticky + [o])]
  }

  /** ReactiveTuple::setOutputs: addOutput(o) on each input in turn. */
  function AddOutputs(ns: seq<Node>, ins: seq<Id>, o: Id): (r: seq<Node>)
    requires forall x :: x in ins ==> x < |ns|
    ensures |r| == |ns|
    decreases |ins|
  {
    if ins == [] then ns
    else
      var p, x := ins[..|ins| - 1], ins[|ins| - 1];
      assert ins == p + [x];
      assert x in ins && forall y :: y in p ==> y in ins;
      AddOutput(AddOutputs(ns, p, o), x, o)
  }

  /** k copies of o. */
  function Repeat(o: Id, k: nat): (r: seq<Id>)
    ensures |r| == k && forall x :: x in r ==> x == o
  {
    seq(k, _ => o)
  }

  /** setOutputs appends o once to the weak list of each input per occurrence of that
      input, at the end, and changes nothing else. */
  lemma {:induction false} AddOutputsEffect(ns: seq<Node>, ins: seq<Id>, o: Id)
    requires forall x :: x in ins ==> x < |ns|
    ensures forall i: nat :: i < |ns| ==>
      AddOutputs(ns, ins, o)[i] == ns[i].(weak := ns[i].weak + Repeat(o, multiset(ins)[i]))
    decreases |ins|
  {
    if ins != [] {
      var p: seq<Id>, x: Id := ins[..|ins| - 1], ins[|ins| - 1];
      assert ins == p + [x];
      assert x in ins && forall y :: y in p ==> y in ins;
      AddOutputsEffect(ns, p, o);
      forall i: nat | i < |ns|
        ensures AddOutputs(ns, ins, o)[i] == ns[i].(weak := ns[i].weak + Repeat(o, multiset(ins)[i]))
      {
        var k: nat := multiset(p)[i];
        assert multiset(ins)[i] == k + if i == x then 1 else 0;
        assert Repeat(o, k) + [o] == Repeat(o, k + 1);
        assert ns[i].weak + Repeat(o, k) + [o] == ns[i].weak + Repeat(o, k + 1);
      }
    }
  }

  /** A node as it is created: no outputs, never signalled, not up to date. The C++
      cachedValue is left indeterminate until the first evaluation; 0 stands for it. */
  function Fresh(k: Kind, value: int): Node {
    Node(k, [], [], value, 0, false, 0)
  }

  /** Var(value): a new source node. Returns its id. */
  function NewVar(g: Graph, value: int): (res: (Id, Graph))
    requires WF(g)
    ensures res.0 == |g.nodes| && WF(res.1)
    ensures res.1 == g.(nodes := g.nodes + [Fresh(Source, value)], alive := g.alive + {res.0})
    ensures res.1.nodes[res.0].kind == Source && res.1.nodes[res.0].value == value && res.0 in res.1.alive
  {
    var n := |g.nodes|;
    var r := g.(nodes := g.nodes + [Fresh(Source, value)], alive := g.alive + {n});
    assert WF(r) by {
      forall m | 0 <= m < |r.nodes| ensures EdgesUp(r.nodes, m) {
        if m < n { assert EdgesUp(g.nodes, m); }
      }
    }
    (n, r)
  }

  /** reactives(ins...).reduce(f): a new computed node over ins (held strongly), added as
      a weak output of every input, in order. Returns its id, larger than every input's. */
  function Reduce(g: Graph, ins: seq<Id>, f: seq<int> -> int): (res: (Id, Graph))
    requires WF(g)
    requires forall x :: x in ins ==> x < |g.nodes| && x in g.alive && !g.nodes[x].kind.Effect?
    ensures res.0 == |g.nodes| && WF(res.1)
  {
    var n := |g.nodes|;
    var base := g.nodes + [Fresh(Computed(ins, f), 0)];
    var r := g.(nodes := AddOutputs(base, ins, n), alive := g.alive + {n});
    AddOutputsEffect(base, ins, n);
    assert WF(r) by {
      forall m | 0 <= m < |r.nodes| ensures EdgesUp(r.nodes, m) {
        if m < n { assert EdgesUp(g.nodes, m); }
      }
    }
    (n, r)
  }

  /** The function of Reactive::map(fn): a one-input combining function. reduce always
      calls it with exactly one argument. */
  function Unary(fn: int -> int): seq<int> -> int {
    args => if |args| == 1 then fn(args[0]) else fn(0)
  }

  /** Reactive::map(fn) is reactives(*this).reduce(fn). */
  function Map(g: Graph, i: Id, fn: int -> int): (res: (Id, Graph))
    requires WF(g) && i < |g.nodes| && i in g.alive && !g.nodes[i].kind.Effect?
  {
    Reduce(g, [i], Unary(fn))
  }

  /** Reactive::observe: a new observer node holding node i weakly, added as a sticky
      output of i. Nothing is signalled. Returns the observer's id. */
  function Observe(g: Graph, i: Id): (res: (Id, Graph))
    requires WF(g) && i < |g.nodes| && i in g.alive && !g.nodes[i].kind.Effect?
    ensures res.0 == |g.nodes| && WF(res.1)
  {
    var n := |g.nodes|;
    var r := g.(nodes := AddStickyOutput(g.nodes + [Fresh(Effect(i), 0)], i, n),
                alive := g.alive + {n});
    assert WF(r) by {
      forall m | 0 <= m < |r.nodes| ensures EdgesUp(r.nodes, m) {
        if m < n { assert EdgesUp(g.nodes, m); }
      }
    }
    (n, r)
  }

  /** The last owner of node n lets it go: n expires, and with it the observers only its
      sticky list kept alive. Weak entries that point at n stay until a pass finds them.
      A live computed node holds its inputs strongly, so n is not one of them. */
  function Drop(g: Graph, n: Id): (r: Graph)
    requires n < |g.nodes|
    requires forall m :: m in g.alive && m < |g.nodes| && g.nodes[m].kind.Computed? ==> n !in g.nodes[m].kind.inputs
    ensures r.nodes == g.nodes && r.log == g.log && r.counter == g.counter && r.evals == g.evals
    ensures r.alive == g.alive - {n} - set o | o in g.nodes[n].sticky
    ensures n !in r.alive && forall o :: o in g.nodes[n].sticky ==> o !in r.alive
    ensures forall m :: m in g.alive && m != n && m !in g.nodes[n].sticky <==> m in r.alive
  {
    g.(alive := g.alive - {n} - set o | o in g.nodes[n].sticky)
  }

  /** VarT::numObservers (debug): compact the weak list, then report its length. */
  function NumObservers(g: Graph, n: Id): (res: (nat, Graph))
    requires n < |g.nodes|
    ensures |res.1.nodes| == |g.nodes| && res.0 == |res.1.nodes[n].weak| <= |g.nodes[n].weak|
    ensures forall x :: x in res.1.nodes[n].weak <==> x in g.nodes[n].weak && x in g.alive
  {
    var r := Clean(g, n);
    (|r.nodes[n].weak|, r)
  }
}

/** The engine as the C++ code runs it: one arena object whose fields are updated in
    place. Every method is proved to do exactly what the function of the same name in
    RxGraph does to Model(). */
module RxArena {
  import opened Waves
  import opened Outputs
  import opened RxGraph

  class Arena {
    /** The nodes, addressed by id; each node's output lists, value, flags and cache. */
    var nodes: seq<Node>
    /** Nodes some handle, input list or sticky list still owns. */
    var alive: set<Id>
    /** Signal::signalId, the process-wide wave counter. */
    var counter: int
    /** Every call of an observer's effect, in order. */
    var log: seq<Fire>
    /** RX_EVALUATE_COUNT (debug). */
    var evals: nat

    ghost function Model(): Graph
      reads this
    {
      Graph(nodes, alive, counter, log, evals)
    }

    ghost predicate Valid()
      reads this
    {
      WF(Model())
    }

    constructor ()
      ensures Valid() && Model() == Empty
    {
      nodes, alive, counter, log, evals := [], {}, 1, [], 0;
    }

    /** Signal::nextSignalId. */
    method NextSignalId() returns (id: int)
      requires Valid()
      modifies this
      ensures Valid() && Model() == old(Model()).(counter := NextId(old(counter)).1)
      ensures id == NextId(old(counter)).0
    {
      if counter == 0 {
        counter := 1;
      }
      id := counter;
      counter := (counter + 1) % 256;
    }

    /** Outputting::addOutput. */
    method AddOutput(i: Id, o: Id)
      requires i < |nodes|
      modifies this
      ensures Model() == old(Model()).(nodes := RxGraph.AddOutput(old(nodes), i, o))
    {
      nodes := nodes[i := nodes[i].(weak := nodes[i].weak + [o])];
    }

    /** Outputting::addStickyOutput. */
    method AddStickyOutput(i: Id, o: Id)
      requires i < |nodes|
      modifies this
      ensures Model() == old(Model()).(nodes := RxGraph.AddStickyOutput(old(nodes), i, o))
    {
      nodes := nodes[i := nodes[i].(sticky := nodes[i].sticky + [o])];
    }

    /** Outputting::_clean: remove_if the expired weak entries of node n, then erase. */
    method Clean(n: Id)
      requires Valid() && n < |nodes|
      modifies this
      ensures Valid() && Model() == RxGraph.Clean(old(Model()), n)
    {
      var outs := nodes[n].weak;
      var kept: seq<Id> := [];
      for j := 0 to |outs|
        invariant kept == Compact(outs[..j], alive)
      {
        assert outs[..j + 1][..j] == outs[..j];
        if outs[j] in alive {
          kept := kept + [outs[j]];
        }
      }
      assert outs[..|outs|] == outs;
      ghost var g := Model();
      nodes := nodes[n := nodes[n].(weak := kept)];
      CleanEvolves(g, n, 0);
    }

    /** now() of node n (VarNode::now, RxNode::now with evaluate and callFunc). */
    method Now(n: Id) returns (v: int)
      requires Valid() && n < |nodes| && !nodes[n].kind.Effect?
      modifies this
      ensures Valid() && (v, Model()) == RxGraph.Now(old(Model()), n)
      decreases n
    {
      assert EdgesUp(nodes, n);
      match nodes[n].kind
      case Source =>
        v := nodes[n].value;
      case Computed(ins, f) =>
        if nodes[n].upToDate {
          v := nodes[n].cache;
        } else {
          ghost var g0 := Model();
          var args: seq<int> := [];
          var i := 0;
          while i < |ins|
            invariant 0 <= i <= |ins|
            invariant Valid() && CachesOnly(g0, Model())
            invariant Pull(Model(), n, ins, i, args) == Pull(g0, n, ins, 0, [])
          {
            assert ins[i] in ins;
            ghost var prev := Model();
            var x := Now(ins[i]);
            CachesOnlyTrans(g0, prev, Model());
            args := args + [x];
            i := i + 1;
          }
          v := f(args);
          ghost var g1 := Model();
          nodes := nodes[n := nodes[n].(upToDate := true, cache := v)];
          evals := evals + 1;
          assert Model() == Cache(g1, n, v);
          CachesOnlyTrans(g0, g1, Model());
          CachesOnlyWF(g0, Model());
        }
    }

    /** signal(w) delivered to node o: Routable::signal for a computed node,
        ObserverNode::signal for an observer. */
    method Signal(o: Id, w: int)
      requires Valid() && o < |nodes|
      modifies this
      ensures Valid() && Model() == RxGraph.Signal(old(Model()), o, w)
      decreases |nodes| - o, 2
    {
      assert EdgesUp(nodes, o);
      match nodes[o].kind
      case Source =>
      case Effect(i) =>
        if i in alive {
          var v := Now(i);
          log := log + [Fire(o, v)];
        }
      case Computed(_, _) =>
        if w != nodes[o].lastWave {
          ghost var g := Model();
          nodes := nodes[o := nodes[o].(lastWave := w, upToDate := false)];
          assert Model() == Invalidate(g, o, w);
          assert Valid() by {
            forall m | 0 <= m < |nodes| ensures EdgesUp(nodes, m) {
              assert EdgesUp(g.nodes, m);
            }
          }
          Forward(o, w);
        }
    }

    /** Outputting::forwardSignal on node n. */
    method Forward(n: Id, w: int)
      requires Valid() && n < |nodes|
      modifies this
      ensures Valid() && Model() == RxGraph.Forward(old(Model()), n, w)
      decreases |nodes| - n, 1
    {
      assert EdgesUp(nodes, n);
      ghost var g0 := Model();
      var outs := nodes[n].weak;
      var sticky := nodes[n].sticky;
      var cleanup := false;
      for i := 0 to |outs|
        invariant Valid() && Evolves(g0, Model(), n + 1, n + 1, w)
        invariant SignalWeak(Model(), n, w, outs, i, cleanup) == SignalWeak(g0, n, w, outs, 0, false)
      {
        assert outs[i] in outs;
        if outs[i] in alive {
          ghost var prev := Model();
          Signal(outs[i], w);
          EvolvesTrans(g0, prev, Model(), n + 1, n + 1, outs[i], outs[i], w);
        } else {
          cleanup := true;
        }
      }
      ghost var g1 := Model();
      for i := 0 to |sticky|
        invariant Valid() && Evolves(g0, Model(), n + 1, n + 1, w)
        invariant SignalSticky(Model(), n, w, sticky, i) == SignalSticky(g1, n, w, sticky, 0)
      {
        assert sticky[i] in sticky;
        ghost var prev := Model();
        Signal(sticky[i], w);
        EvolvesTrans(g0, prev, Model(), n + 1, n + 1, sticky[i], sticky[i], w);
      }
      if cleanup {
        Clean(n);
      }
    }

    /** VarNode::set (reached through VarT::set). */
    method Set(s: Id, v: int)
      requires Valid() && s < |nodes| && nodes[s].kind.Source?
      modifies this
      ensures Valid() && Model() == RxGraph.Set(old(Model()), s, v)
    {
      if nodes[s].value != v {
        ghost var g := Model();
        nodes := nodes[s := nodes[s].(value := v)];
        assert Valid() by {
          forall m | 0 <= m < |nodes| ensures EdgesUp(nodes, m) {
            assert EdgesUp(g.nodes, m);
          }
        }
        var w := NextSignalId();
        Forward(s, w);
      }
    }

    /** Var(value): a new source node. */
    method NewVar(value: int) returns (id: Id)
      requires Valid()
      modifies this
      ensures Valid() && (id, Model()) == RxGraph.NewVar(old(Model()), value)
    {
      ghost var g := Model();
      id := |nodes|;
      nodes := nodes + [Fresh(Source, value)];
      alive := alive + {id};
      assert Model() == RxGraph.NewVar(g, value).1;
    }

    /** reactives(ins...).reduce(f): the new node, then setOutputs over the inputs. */
    method Reduce(ins: seq<Id>, f: seq<int> -> int) returns (id: Id)
      requires Valid()
      requires forall x :: x in ins ==> x < |nodes| && x in alive && !nodes[x].kind.Effect?
      modifies this
      ensures Valid() && (id, Model()) == RxGraph.Reduce(old(Model()), ins, f)
    {
      ghost var g := Model();
      id := |nodes|;
      nodes := nodes + [Fresh(Computed(ins, f), 0)];
      alive := alive + {id};
      ghost var base := nodes;
      assert forall j :: 0 <= j <= |ins| ==> forall x :: x in ins[..j] ==> x in ins;
      for j := 0 to |ins|
        invariant |nodes| == |base| && alive == g.alive + {id}
        invariant counter == g.counter && log == g.log && evals == g.evals
        invariant nodes == AddOutputs(base, ins[..j], id)
      {
        assert ins[j] in ins;
        assert ins[..j + 1][..j] == ins[..j];
        AddOutput(ins[j], id);
      }
      assert ins[..|ins|] == ins;
      assert Model() == RxGraph.Reduce(g, ins, f).1;
    }

    /** Reactive::map(fn). */
    method Map(i: Id, fn: int -> int) returns (id: Id)
      requires Valid() && i < |nodes| && i in alive && !nodes[i].kind.Effect?
      modifies this
      ensures Valid() && (id, Model()) == RxGraph.Map(old(Model()), i, fn)
    {
      id := Reduce([i], Unary(fn));
    }

    /** Reactive::observe: construct the observer node, register it as sticky output. */
    method Observe(i: Id) returns (id: Id)
      requires Valid() && i < |nodes| && i in alive && !nodes[i].kind.Effect?
      modifies this
      ensures Valid() && (id, Model()) == RxGraph.Observe(old(Model()), i)
    {
      ghost var g := Model();
      id := |nodes|;
      nodes := nodes + [Fresh(Effect(i), 0)];
      alive := alive + {id};
      AddStickyOutput(i, id);
      assert Model() == RxGraph.Observe(g, i).1;
    }

    /** The last owner of node n lets it go. */
    method Drop(n: Id)
      requires n < |nodes|
      requires forall m :: m in alive && m < |nodes| && nodes[m].kind.Computed? ==> n !in nodes[m].kind.inputs
      modifies this
      ensures Model() == RxGraph.Drop(old(Model()), n)
    {
      alive := alive - {n} - set o | o in nodes[n].sticky;
    }

    /** VarT::numObservers (debug). */
    method NumObservers(n: Id) returns (count: nat)
      requires Valid() && n < |nodes|
      modifies this
      ensures Valid() && (count, Model()) == RxGraph.NumObservers(old(Model()), n)
    {
      Clean(n);
      count := |nodes[n].weak|;
    }
  }
}

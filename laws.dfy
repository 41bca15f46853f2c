/** What the engine promises, proved about the functions of RxGraph: the order in which
    a pass visits outputs, lazy compaction, dedup of a wave, lazy reads, and what the
    combinators register. */
module RxLaws {
  import opened Waves
  import opened Outputs
  import opened RxGraph

  // ---------------------------------------------------------------------------------
  // forwardSignal, stated against an independent reference: signal a list of targets
  // one after another.

  /** Deliver wave w to each of `targets`, in order. */
  function SignalAll(g: Graph, targets: seq<Id>, w: int): (r: Graph)
    requires WF(g) && forall o :: o in targets ==> o < |g.nodes|
    ensures WF(r) && |r.nodes| == |g.nodes| && r.alive == g.alive
    decreases |targets|
  {
    if targets == [] then g
    else
      assert targets[0] in targets && forall o :: o in targets[1..] ==> o in targets;
      SignalAll(Signal(g, targets[0], w), targets[1..], w)
  }

  lemma {:induction false} SignalAllAppend(g: Graph, a: seq<Id>, b: seq<Id>, w: int)
    requires WF(g)
    requires forall o :: o in a ==> o < |g.nodes|
    requires forall o :: o in b ==> o < |g.nodes|
    ensures SignalAll(g, a + b, w) == SignalAll(SignalAll(g, a, w), b, w)
    decreases |a|
  {
    if a != [] {
      assert (a + b)[0] == a[0] && (a + b)[1..] == a[1..] + b;
      assert a[0] in a && forall o :: o in a[1..] ==> o in a;
      var g1 := Signal(g, a[0], w);
      SignalAllAppend(g1, a[1..], b, w);
      assert SignalAll(g, a + b, w) == SignalAll(g1, a[1..] + b, w);
      assert SignalAll(g, a, w) == SignalAll(g1, a[1..], w);
    } else {
      assert a + b == b;
    }
  }

  /** Node n's targets for one pass: its live weak outputs in list order, then all its
      sticky outputs in list order. */
  function Targets(g: Graph, n: Id): (t: seq<Id>)
    requires WF(g) && n < |g.nodes|
    ensures forall o :: o in t ==> n < o < |g.nodes|
  {
    assert EdgesUp(g.nodes, n);
    Compact(g.nodes[n].weak, g.alive) + g.nodes[n].sticky
  }

  /** Some weak output of n has expired. */
  predicate HasExpired(g: Graph, n: Id)
    requires n < |g.nodes|
  {
    exists j :: 0 <= j < |g.nodes[n].weak| && g.nodes[n].weak[j] !in g.alive
  }

  lemma {:induction false} WeakPass(g: Graph, n: Id, w: int, outs: seq<Id>, i: nat, e: bool)
    requires WF(g) && n < |g.nodes| && i <= |outs|
    requires forall o :: o in outs ==> n < o < |g.nodes|
    ensures forall o :: o in Compact(outs[i..], g.alive) ==> o < |g.nodes|
    ensures SignalWeak(g, n, w, outs, i, e).0 == SignalAll(g, Compact(outs[i..], g.alive), w)
    decreases |outs| - i
  {
    if i < |outs| {
      var x := outs[i];
      assert outs[i..] == [x] + outs[i + 1..];
      CompactAppend([x], outs[i + 1..], g.alive);
      assert Compact([x], g.alive) == if x in g.alive then [x] else [] by {
        assert [x][..0] == [];
      }
      assert x in outs;
      if x in g.alive {
        var g1 := Signal(g, x, w);
        WeakPass(g1, n, w, outs, i + 1, e);
        assert ([x] + Compact(outs[i + 1..], g.alive))[1..] == Compact(outs[i + 1..], g.alive);
      } else {
        WeakPass(g, n, w, outs, i + 1, true);
        assert Compact(outs[i..], g.alive) == Compact(outs[i + 1..], g.alive);
        assert SignalWeak(g, n, w, outs, i, e) == SignalWeak(g, n, w, outs, i + 1, true);
      }
    } else {
      assert outs[i..] == [];
    }
  }

  lemma {:induction false} StickyPass(g: Graph, n: Id, w: int, outs: seq<Id>, i: nat)
    requires WF(g) && n < |g.nodes| && i <= |outs|
    requires forall o :: o in outs ==> n < o < |g.nodes|
    ensures forall o :: o in outs[i..] ==> o < |g.nodes|
    ensures SignalSticky(g, n, w, outs, i) == SignalAll(g, outs[i..], w)
    decreases |outs| - i
  {
    if i < |outs| {
      assert outs[i] in outs;
      assert outs[i..][0] == outs[i] && outs[i..][1..] == outs[i + 1..];
      assert forall o :: o in outs[i..] ==> o in outs;
      StickyPass(Signal(g, outs[i], w), n, w, outs, i + 1);
    }
  }

  /** forwardSignal signals every live weak output in list order, then every sticky
      output in list order (expired weak outputs get nothing), and compacts the weak
      list afterwards exactly when it saw an expired entry. */
  lemma ForwardOrder(g: Graph, n: Id, w: int)
    requires WF(g) && n < |g.nodes|
    ensures Forward(g, n, w) ==
      var h := SignalAll(g, Targets(g, n), w);
      if HasExpired(g, n) then Clean(h, n) else h
  {
    assert EdgesUp(g.nodes, n);
    var outs, sticky := g.nodes[n].weak, g.nodes[n].sticky;
    WeakPass(g, n, w, outs, 0, false);
    assert outs[0..] == outs;
    var g1 := SignalWeak(g, n, w, outs, 0, false).0;
    StickyPass(g1, n, w, sticky, 0);
    assert sticky[0..] == sticky;
    SignalAllAppend(g, Compact(outs, g.alive), sticky, w);
  }

  /** A node whose single target is t, with no expired weak entry, forwards to t alone. */
  lemma ForwardToOne(g: Graph, n: Id, w: int, t: Id)
    requires WF(g) && n < |g.nodes| && Targets(g, n) == [t] && !HasExpired(g, n)
    ensures n < t < |g.nodes| && Forward(g, n, w) == Signal(g, t, w)
  {
    assert t in Targets(g, n);
    ForwardOrder(g, n, w);
    assert SignalAll(g, [t], w) == SignalAll(Signal(g, t, w), [], w);
  }

  /** A node whose two targets are t and u, with no expired weak entry, forwards to t
      and then to u. */
  lemma ForwardToTwo(g: Graph, n: Id, w: int, t: Id, u: Id)
    requires WF(g) && n < |g.nodes| && Targets(g, n) == [t, u] && !HasExpired(g, n)
    ensures n < t < |g.nodes| && n < u < |g.nodes| && Forward(g, n, w) == Signal(Signal(g, t, w), u, w)
  {
    assert t in Targets(g, n) && u in Targets(g, n);
    ForwardOrder(g, n, w);
    var g1 := Signal(g, t, w);
    assert [t, u][0] == t && [t, u][1..] == [u] && [u][1..] == [];
    assert SignalAll(g1, [u], w) == Signal(g1, u, w);
    assert SignalAll(g, [t, u], w) == SignalAll(g1, [u], w);
  }

  /** After a pass from n, n's weak list has been compacted if and only if an expired
      entry was seen; compaction drops exactly the expired entries and keeps the order
      of the rest; the sticky list is untouched. */
  lemma ForwardCompaction(g: Graph, n: Id, w: int)
    requires WF(g) && n < |g.nodes|
    ensures Forward(g, n, w).nodes[n].weak ==
      if HasExpired(g, n) then Compact(g.nodes[n].weak, g.alive) else g.nodes[n].weak
    ensures Forward(g, n, w).nodes[n].sticky == g.nodes[n].sticky
  {
    assert EdgesUp(g.nodes, n);
  }

  // ---------------------------------------------------------------------------------
  // Routable::signal: dedup on the last processed wave.

  /** A computed node that already processed wave w does nothing on it: no state change,
      nothing forwarded. */
  lemma SignalSameWave(g: Graph, o: Id, w: int)
    requires WF(g) && o < |g.nodes| && g.nodes[o].kind.Computed? && g.nodes[o].lastWave == w
    ensures Signal(g, o, w) == g
  {
  }

  /** A computed node receiving a new wave records it (and keeps it through its own
      pass). */
  lemma SignalNewWave(g: Graph, o: Id, w: int)
    requires WF(g) && o < |g.nodes| && g.nodes[o].kind.Computed? && g.nodes[o].lastWave != w
    ensures Signal(g, o, w).nodes[o].lastWave == w
  {
  }

  /** A computed node whose only output is the live weak entry t passes a new wave
      straight on to t, after invalidating itself. */
  lemma SignalHop(g: Graph, o: Id, w: int, t: Id)
    requires WF(g) && o < |g.nodes| && g.nodes[o].kind.Computed? && g.nodes[o].lastWave != w
    requires g.nodes[o].weak == [t] && g.nodes[o].sticky == [] && t in g.alive
    ensures WF(Invalidate(g, o, w)) && o < t < |g.nodes|
    ensures Signal(g, o, w) == Signal(Invalidate(g, o, w), t, w)
  {
    var h := Invalidate(g, o, w);
    assert WF(h) by {
      forall m | 0 <= m < |h.nodes| ensures EdgesUp(h.nodes, m) {
        assert EdgesUp(g.nodes, m);
      }
    }
    assert Signal(g, o, w) == Forward(h, o, w);
    assert Compact([t], h.alive) == [t] by {
      assert [t][..0] == [];
    }
    assert Targets(h, o) == [t];
    assert !HasExpired(h, o);
    ForwardToOne(h, o, w, t);
  }

  /** Delivering the same wave twice to a computed node is the same as delivering it
      once: this is what makes a diamond fire its join once. */
  lemma SignalTwice(g: Graph, o: Id, w: int)
    requires WF(g) && o < |g.nodes| && g.nodes[o].kind.Computed?
    ensures Signal(Signal(g, o, w), o, w) == Signal(g, o, w)
  {
    if g.nodes[o].lastWave != w {
      SignalNewWave(g, o, w);
    }
  }

  /** An observer has no dedup: each delivery calls the effect once with the input's
      now() if the input is alive, and does nothing when it has expired. */
  lemma ObserverSignal(g: Graph, e: Id, w: int)
    requires WF(g) && e < |g.nodes| && g.nodes[e].kind.Effect?
    ensures var i := g.nodes[e].kind.input;
      assert EdgesUp(g.nodes, e);
      Signal(g, e, w) ==
        if i in g.alive then
          var (v, g1) := Now(g, i); g1.(log := g.log + [Fire(e, v)])
        else g
  {
    assert EdgesUp(g.nodes, e);
  }

  // ---------------------------------------------------------------------------------
  // RxNode::now: lazy evaluation.

  /** An up-to-date computed node returns its cache and changes nothing. */
  lemma NowCached(g: Graph, n: Id)
    requires WF(g) && n < |g.nodes| && g.nodes[n].kind.Computed? && g.nodes[n].upToDate
    ensures Now(g, n) == (g.nodes[n].cache, g)
  {
  }

  /** A source's now() is its stored value, with no side effect. */
  lemma NowSource(g: Graph, n: Id)
    requires WF(g) && n < |g.nodes| && g.nodes[n].kind.Source?
    ensures Now(g, n) == (g.nodes[n].value, g)
  {
  }

  /** A computed node that is not up to date applies its function to its inputs' now()
      in input order, caches the result, becomes up to date and counts one evaluation of
      its own. */
  lemma NowEvaluates(g: Graph, n: Id)
    requires WF(g) && n < |g.nodes| && g.nodes[n].kind.Computed? && !g.nodes[n].upToDate
    ensures
      assert EdgesUp(g.nodes, n);
      var (args, g1) := Pull(g, n, g.nodes[n].kind.inputs, 0, []);
      && |args| == |g.nodes[n].kind.inputs|
      && Now(g, n).0 == g.nodes[n].kind.f(args)
      && Now(g, n).1.nodes[n].upToDate
      && Now(g, n).1.nodes[n].cache == Now(g, n).0
      && Now(g, n).1.evals == g1.evals + 1
  {
    assert EdgesUp(g.nodes, n);
  }

  /** Reading a node a second time returns the same value, evaluates nothing and changes
      nothing. */
  lemma NowTwice(g: Graph, n: Id)
    requires WF(g) && n < |g.nodes| && !g.nodes[n].kind.Effect?
    ensures Now(Now(g, n).1, n) == Now(g, n)
  {
    assert EdgesUp(g.nodes, n);
    var (v, r) := Now(g, n);
    assert r.nodes[n] == g.nodes[n].(upToDate := r.nodes[n].upToDate, cache := r.nodes[n].cache);
  }

  /** receivedSignal only clears upToDate: the cache is untouched. */
  lemma InvalidateKeepsCache(g: Graph, o: Id, w: int)
    requires o < |g.nodes|
    ensures !Invalidate(g, o, w).nodes[o].upToDate
    ensures Invalidate(g, o, w).nodes[o].cache == g.nodes[o].cache
  {
  }

  // ---------------------------------------------------------------------------------
  // The wave a changing set starts.

  /** A changing set allocates exactly one wave id and that is the only id any node
      records during the pass; an equal set changes nothing. */
  lemma SetOneWave(g: Graph, s: Id, v: int)
    requires WF(g) && s < |g.nodes| && g.nodes[s].kind.Source?
    ensures var r := Set(g, s, v);
      g.nodes[s].value != v ==>
        && r.counter == NextId(g.counter).1
        && forall i :: 0 <= i < |g.nodes| ==>
             r.nodes[i].lastWave == g.nodes[i].lastWave || r.nodes[i].lastWave == NextId(g.counter).0
  {
  }

  /** A set changes no kind, no liveness and no value but the source's. */
  lemma SetShape(g: Graph, s: Id, v: int)
    requires WF(g) && s < |g.nodes| && g.nodes[s].kind.Source?
    ensures var r := Set(g, s, v);
      && |r.nodes| == |g.nodes| && r.alive == g.alive && g.log <= r.log
      && forall i :: 0 <= i < |g.nodes| ==>
           && r.nodes[i].kind == g.nodes[i].kind && r.nodes[i].sticky == g.nodes[i].sticky
           && r.nodes[i].value == (if i == s then v else g.nodes[i].value)
  {
    if g.nodes[s].value != v {
      var (w, c) := NextId(g.counter);
      var h := g.(nodes := g.nodes[s := g.nodes[s].(value := v)], counter := c);
      assert WF(h) by {
        forall n | 0 <= n < |h.nodes| ensures EdgesUp(h.nodes, n) {
          assert EdgesUp(g.nodes, n);
        }
      }
      assert Set(g, s, v) == Forward(h, s, w);
    }
  }

  // ---------------------------------------------------------------------------------
  // Combinators.

  /** reduce adds the new node, whose id is larger than every input's, once to the end
      of the weak list of each input per occurrence of that input, and to no other list;
      no value, cache or flag of an existing node changes. */
  lemma ReduceRegisters(g: Graph, ins: seq<Id>, f: seq<int> -> int)
    requires WF(g)
    requires forall x :: x in ins ==> x < |g.nodes| && x in g.alive && !g.nodes[x].kind.Effect?
    ensures var (n, r) := Reduce(g, ins, f);
      && |r.nodes| == n + 1 && r.alive == g.alive + {n}
      && (forall x :: x in ins ==> x < n)
      && r.nodes[n] == Fresh(Computed(ins, f), 0)
      && (forall i: nat :: i < n ==>
            r.nodes[i] == g.nodes[i].(weak := g.nodes[i].weak + Repeat(n, multiset(ins)[i])))
      && r.log == g.log && r.evals == g.evals && r.counter == g.counter
  {
    var n := |g.nodes|;
    AddOutputsEffect(g.nodes + [Fresh(Computed(ins, f), 0)], ins, n);
  }

  /** With distinct inputs, each input gets the new node exactly once, at the end. */
  lemma ReduceDistinct(g: Graph, ins: seq<Id>, f: seq<int> -> int, j: nat)
    requires WF(g)
    requires forall x :: x in ins ==> x < |g.nodes| && x in g.alive && !g.nodes[x].kind.Effect?
    requires forall a, b :: 0 <= a < b < |ins| ==> ins[a] != ins[b]
    requires j < |ins|
    ensures var (n, r) := Reduce(g, ins, f);
      ins[j] < n && r.nodes[ins[j]].weak == g.nodes[ins[j]].weak + [n]
  {
    ReduceRegisters(g, ins, f);
    var x := ins[j];
    var before, after := ins[..j], ins[j + 1..];
    assert multiset(ins)[x] == 1 by {
      assert ins == before + [x] + after;
      assert x !in before && x !in after by {
        forall y | y in before ensures y != x {
          var k :| 0 <= k < j && before[k] == y;
          assert ins[k] == y;
        }
        forall y | y in after ensures y != x {
          var k :| 0 <= k < |after| && after[k] == y;
          assert ins[j + 1 + k] == y;
        }
      }
    }
    assert x in ins;
    var n := |g.nodes|;
    assert Repeat(n, 1) == [n];
  }

  /** observe adds an observer node as a sticky output of its input, at the end, holds
      the input weakly, changes no value or cache and calls no effect. */
  lemma ObserveRegisters(g: Graph, i: Id)
    requires WF(g) && i < |g.nodes| && i in g.alive && !g.nodes[i].kind.Effect?
    ensures var (n, r) := Observe(g, i);
      && |r.nodes| == n + 1 && r.alive == g.alive + {n} && i < n
      && r.nodes[n] == Fresh(Effect(i), 0)
      && r.nodes[i] == g.nodes[i].(sticky := g.nodes[i].sticky + [n])
      && (forall k :: 0 <= k < n && k != i ==> r.nodes[k] == g.nodes[k])
      && r.log == g.log && r.evals == g.evals && r.counter == g.counter
  {
  }
}

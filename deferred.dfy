/** A set that notifies observers only after the whole propagation pass.

    In VarNode::set the pass is depth first, and an observer reads its input as soon as
    the pass reaches it, while inputs further along the pass may still hold caches from
    the previous value (RxScenarios.DiamondGlitch). SetDeferred runs the same pass with
    every observer list set aside, then calls the observers of every node the pass
    reached, in id order. With every invalidation done first, each observer receives its
    input's value from scratch and the caches stay coherent (SetDeferredCoherent). */
module RxDeferred {
  import opened Waves
  import opened RxGraph
  import opened RxLaws
  import opened RxCoherence

  /** g with every observer list emptied. */
  function Strip(g: Graph): (r: Graph)
    ensures |r.nodes| == |g.nodes| && r.alive == g.alive && r.counter == g.counter && r.log == g.log
    ensures forall i :: 0 <= i < |g.nodes| ==> r.nodes[i] == g.nodes[i].(sticky := [])
  {
    g.(nodes := seq(|g.nodes|, i requires 0 <= i < |g.nodes| => g.nodes[i].(sticky := [])))
  }

  /** r with the observer lists of g put back. */
  function Restore(r: Graph, g: Graph): (q: Graph)
    requires |r.nodes| == |g.nodes|
    ensures |q.nodes| == |r.nodes| && q.alive == r.alive && q.counter == r.counter && q.log == r.log
    ensures forall i :: 0 <= i < |r.nodes| ==> q.nodes[i] == r.nodes[i].(sticky := g.nodes[i].sticky)
  {
    r.(nodes := seq(|r.nodes|, i requires 0 <= i < |r.nodes| => r.nodes[i].(sticky := g.nodes[i].sticky)))
  }

  lemma StripInv(g: Graph)
    requires Inv(g)
    ensures Inv(Strip(g)) && NoEffects(Strip(g))
  {
    var r := Strip(g);
    assert WF(r) by {
      forall m | 0 <= m < |r.nodes| ensures EdgesUp(r.nodes, m) {
        assert EdgesUp(g.nodes, m);
      }
    }
    DenoteFrameAll(g, r);
    assert Owned(r) by {
      forall n, i | n in r.alive && n < |r.nodes| && r.nodes[n].kind.Computed? && i in r.nodes[n].kind.inputs
        ensures i in r.alive && i < |r.nodes| && n in r.nodes[i].weak
      {
        assert g.nodes[n].kind == r.nodes[n].kind;
      }
    }
  }

  lemma RestoreInv(r: Graph, g: Graph)
    requires Inv(r) && WF(g) && |r.nodes| == |g.nodes|
    requires forall i :: 0 <= i < |g.nodes| ==> r.nodes[i].kind == g.nodes[i].kind
    ensures Inv(Restore(r, g))
  {
    var q := Restore(r, g);
    assert WF(q) by {
      forall m | 0 <= m < |q.nodes| ensures EdgesUp(q.nodes, m) {
        assert EdgesUp(g.nodes, m) && EdgesUp(r.nodes, m);
      }
    }
    DenoteFrameAll(r, q);
    assert Owned(q) by {
      forall n, i | n in q.alive && n < |q.nodes| && q.nodes[n].kind.Computed? && i in q.nodes[n].kind.inputs
        ensures i in q.alive && i < |q.nodes| && n in q.nodes[i].weak
      {
        assert r.nodes[n].kind == q.nodes[n].kind;
      }
    }
    assert Coherent(q) by {
      forall n | 0 <= n < |q.nodes| && n in q.alive && q.nodes[n].kind.Computed? && q.nodes[n].upToDate
        ensures q.nodes[n].cache == Denote(q, n)
      {
        assert r.nodes[n].cache == q.nodes[n].cache && r.nodes[n].upToDate;
      }
    }
  }

  /** (e, i) for every observer e in es. */
  function Pairs(es: seq<Id>, i: Id): (ps: seq<(Id, Id)>)
    ensures |ps| == |es| && forall k :: 0 <= k < |ps| ==> ps[k] == (es[k], i)
  {
    seq(|es|, k requires 0 <= k < |es| => (es[k], i))
  }

  /** The notifications due after a pass of wave w from source s, for nodes i and up:
      every observer of s, and of every computed node that took wave w, paired with the
      node it observes, in id order. */
  function Pending(q: Graph, s: Id, w: int, i: nat): (ps: seq<(Id, Id)>)
    requires i <= |q.nodes| && s < |q.nodes| && q.nodes[s].kind.Source?
    ensures forall p :: p in ps ==> i <= p.1 < |q.nodes| && !q.nodes[p.1].kind.Effect?
    ensures forall p :: p in ps ==> p.0 in q.nodes[p.1].sticky
    decreases |q.nodes| - i
  {
    if i == |q.nodes| then []
    else
      var here := if i == s || (q.nodes[i].kind.Computed? && q.nodes[i].lastWave == w)
        then Pairs(q.nodes[i].sticky, i) else [];
      here + Pending(q, s, w, i + 1)
  }

  /** Pending reads only kinds, wave ids and observer lists. */
  lemma {:induction false} PendingFrame(q: Graph, r: Graph, s: Id, w: int, i: nat)
    requires i <= |q.nodes| && s < |q.nodes| && q.nodes[s].kind.Source? && |r.nodes| == |q.nodes|
    requires forall k :: 0 <= k < |q.nodes| ==>
      r.nodes[k].kind == q.nodes[k].kind && r.nodes[k].lastWave == q.nodes[k].lastWave &&
      r.nodes[k].sticky == q.nodes[k].sticky
    ensures Pending(r, s, w, i) == Pending(q, s, w, i)
    decreases |q.nodes| - i
  {
    if i < |q.nodes| {
      PendingFrame(q, r, s, w, i + 1);
    }
  }

  /** Calls each observer e of the pairs (e, i), in order, with now() of i, when i is
      alive. */
  function Notify(g: Graph, ps: seq<(Id, Id)>): (r: Graph)
    requires WF(g) && forall p :: p in ps ==> p.1 < |g.nodes| && !g.nodes[p.1].kind.Effect?
    ensures WF(r) && |r.nodes| == |g.nodes| && r.alive == g.alive && r.counter == g.counter
    ensures forall i :: 0 <= i < |g.nodes| ==>
      r.nodes[i] == g.nodes[i].(upToDate := r.nodes[i].upToDate, cache := r.nodes[i].cache)
    decreases |ps|
  {
    if ps == [] then g
    else
      var (e, i) := ps[0];
      assert ps[0] in ps;
      if i in g.alive then
        var (v, g1) := Now(g, i);
        Notify(g1.(log := g1.log + [Fire(e, v)]), ps[1..])
      else Notify(g, ps[1..])
  }

  /** The effect calls the pairs should produce: each observer with its input's value
      from scratch. */
  ghost function Fires(g: Graph, ps: seq<(Id, Id)>): (fs: seq<Fire>)
    requires WF(g) && forall p :: p in ps ==> p.1 < |g.nodes| && !g.nodes[p.1].kind.Effect?
    ensures |fs| <= |ps|
  {
    if ps == [] then []
    else
      assert ps[0] in ps;
      (if ps[0].1 in g.alive then [Fire(ps[0].0, Denote(g, ps[0].1))] else []) + Fires(g, ps[1..])
  }

  lemma {:induction false} FiresFrame(a: Graph, b: Graph, ps: seq<(Id, Id)>)
    requires WF(a) && WF(b) && |a.nodes| == |b.nodes| && a.alive == b.alive
    requires forall i :: 0 <= i < |a.nodes| ==> SameFace(a.nodes[i], b.nodes[i])
    requires forall p :: p in ps ==> p.1 < |a.nodes| && !a.nodes[p.1].kind.Effect? && !b.nodes[p.1].kind.Effect?
    ensures Fires(a, ps) == Fires(b, ps)
    decreases |ps|
  {
    if ps != [] {
      assert ps[0] in ps;
      DenoteFrameAll(a, b);
      FiresFrame(a, b, ps[1..]);
    }
  }

  /** With coherent caches, every notification carries its input's value from scratch
      and the caches stay coherent. */
  lemma {:induction false} NotifyCorrect(g: Graph, ps: seq<(Id, Id)>)
    requires Inv(g) && forall p :: p in ps ==> p.1 < |g.nodes| && !g.nodes[p.1].kind.Effect?
    ensures Inv(Notify(g, ps)) && Notify(g, ps).log == g.log + Fires(g, ps)
    decreases |ps|
  {
    if ps != [] {
      var (e, i) := ps[0];
      assert ps[0] in ps;
      if i in g.alive {
        var (v, g1) := Now(g, i);
        NowCorrect(g, i);
        var g2 := g1.(log := g1.log + [Fire(e, v)]);
        DenoteFrameAll(g1, g2);
        assert Inv(g2);
        NotifyCorrect(g2, ps[1..]);
        CachesOnlyFace(g, g1);
        FiresFrame(g, g2, ps[1..]);
      } else {
        NotifyCorrect(g, ps[1..]);
      }
    }
  }

  /** VarNode::set with observer calls deferred to the end of the pass. */
  function SetDeferred(g: Graph, s: Id, v: int): (r: Graph)
    requires WF(g) && s < |g.nodes| && g.nodes[s].kind.Source?
    ensures WF(r) && |r.nodes| == |g.nodes| && r.alive == g.alive
  {
    if g.nodes[s].value == v then g
    else
      var h := Strip(g);
      assert WF(h) by {
        forall m | 0 <= m < |h.nodes| ensures EdgesUp(h.nodes, m) {
          assert EdgesUp(g.nodes, m);
        }
      }
      SetShape(h, s, v);
      var p := Set(h, s, v);
      var q := Restore(p, g);
      assert WF(q) by {
        forall m | 0 <= m < |q.nodes| ensures EdgesUp(q.nodes, m) {
          assert EdgesUp(g.nodes, m) && EdgesUp(p.nodes, m);
        }
      }
      Notify(q, Pending(q, s, NextId(g.counter).0, 0))
  }

  /** From coherent caches and a fresh wave id, the deferred set leaves the caches
      coherent, and appends exactly one call per observer of each node the pass reached,
      each carrying the value of its input from scratch in the new state. */
  lemma SetDeferredCoherent(g: Graph, s: Id, v: int)
    requires Inv(g) && s < |g.nodes| && s in g.alive && g.nodes[s].kind.Source?
    requires forall i :: 0 <= i < |g.nodes| ==> g.nodes[i].lastWave != NextId(g.counter).0
    ensures var r := SetDeferred(g, s, v);
      && Inv(r) && r.nodes[s].value == v
      && r.log == g.log + if g.nodes[s].value == v then [] else Fires(r, Pending(r, s, NextId(g.counter).0, 0))
  {
    if g.nodes[s].value != v {
      var h := Strip(g);
      StripInv(g);
      SetShape(h, s, v);
      SetCoherent(h, s, v);
      var p := Set(h, s, v);
      RestoreInv(p, g);
      var q := Restore(p, g);
      var ps := Pending(q, s, NextId(g.counter).0, 0);
      NotifyCorrect(q, ps);
      var r := Notify(q, ps);
      assert r == SetDeferred(g, s, v);
      assert forall i :: 0 <= i < |q.nodes| ==> SameFace(q.nodes[i], r.nodes[i]);
      FiresFrame(q, r, ps);
      PendingFrame(q, r, s, NextId(g.counter).0, 0);
    }
  }
}

/** What a node's now() ought to be, and the proof that the engine delivers it: reads
    return the value the node's function gives over its inputs' current values, and a
    changing set on a graph without observers leaves every cache that still claims to be
    up to date correct, on a wave id that no node has recorded yet. */
module RxCoherence {
  import opened Waves
  import opened Outputs
  import opened RxGraph
  import opened RxLaws

  // ---------------------------------------------------------------------------------
  // The reference: values computed from scratch.

  /** The value node n stands for: a source's stored value, or a computed node's
      function applied to its inputs' values, in input order. No cache involved. */
  function Denote(g: Graph, n: Id): (v: int)
    requires WF(g) && n < |g.nodes| && !g.nodes[n].kind.Effect?
    decreases n, 1
  {
    assert EdgesUp(g.nodes, n);
    match g.nodes[n].kind
    case Source => g.nodes[n].value
    case Computed(ins, f) => f(DenoteArgs(g, n, ins))
  }

  /** The values of inputs `ins` of node `owner`, in order. */
  function DenoteArgs(g: Graph, owner: Id, ins: seq<Id>): (vs: seq<int>)
    requires WF(g) && owner < |g.nodes|
    requires forall x :: x in ins ==> x < owner && !g.nodes[x].kind.Effect?
    ensures |vs| == |ins|
    decreases owner, 0, |ins|
  {
    if ins == [] then []
    else
      assert ins[0] in ins && forall x :: x in ins[1..] ==> x in ins;
      [Denote(g, ins[0])] + DenoteArgs(g, owner, ins[1..])
  }

  /** Two slots that agree on everything Denote looks at. */
  ghost predicate SameFace(a: Node, b: Node) {
    a.kind == b.kind && a.value == b.value
  }

  /** Denote reads only kinds and source values, so nodes that agree on those up to n
      (node n included) denote the same. */
  lemma {:induction false} DenoteFrame(g: Graph, r: Graph, n: Id)
    requires WF(g) && WF(r) && n < |g.nodes| && n < |r.nodes| && !g.nodes[n].kind.Effect?
    requires forall i :: 0 <= i <= n ==> SameFace(g.nodes[i], r.nodes[i])
    ensures SameFace(g.nodes[n], r.nodes[n]) && Denote(r, n) == Denote(g, n)
    decreases n, 1
  {
    assert SameFace(g.nodes[n], r.nodes[n]);
    assert EdgesUp(g.nodes, n);
    match g.nodes[n].kind
    case Source =>
    case Computed(ins, f) =>
      DenoteArgsFrame(g, r, n, ins);
  }

  lemma {:induction false} DenoteArgsFrame(g: Graph, r: Graph, owner: Id, ins: seq<Id>)
    requires WF(g) && WF(r) && owner < |g.nodes| && owner < |r.nodes|
    requires forall x :: x in ins ==> x < owner && !g.nodes[x].kind.Effect?
    requires forall i :: 0 <= i <= owner ==> SameFace(g.nodes[i], r.nodes[i])
    ensures forall x :: x in ins ==> !r.nodes[x].kind.Effect?
    ensures DenoteArgs(r, owner, ins) == DenoteArgs(g, owner, ins)
    decreases owner, 0, |ins|
  {
    assert forall x :: x in ins ==> SameFace(g.nodes[x], r.nodes[x]);
    if ins != [] {
      assert ins[0] in ins && forall x :: x in ins[1..] ==> x in ins;
      DenoteFrame(g, r, ins[0]);
      DenoteArgsFrame(g, r, owner, ins[1..]);
    }
  }

  /** DenoteFrame for every node at once. */
  lemma DenoteFrameAll(g: Graph, r: Graph)
    requires WF(g) && WF(r) && |g.nodes| <= |r.nodes|
    requires forall i :: 0 <= i < |g.nodes| ==> SameFace(g.nodes[i], r.nodes[i])
    ensures forall n :: 0 <= n < |g.nodes| && !g.nodes[n].kind.Effect? ==>
      SameFace(g.nodes[n], r.nodes[n]) && Denote(r, n) == Denote(g, n)
  {
    forall n | 0 <= n < |g.nodes| && !g.nodes[n].kind.Effect?
      ensures SameFace(g.nodes[n], r.nodes[n]) && Denote(r, n) == Denote(g, n)
    {
      DenoteFrame(g, r, n);
    }
  }

  /** A node made by map(fn) over i stands for fn of i's value. */
  lemma DenoteMapped(g: Graph, n: Id, i: Id, fn: int -> int)
    requires WF(g) && n < |g.nodes| && g.nodes[n].kind == Computed([i], Unary(fn))
    ensures i < n && !g.nodes[i].kind.Effect? && Denote(g, n) == fn(Denote(g, i))
  {
    assert EdgesUp(g.nodes, n) && i in [i];
    assert DenoteArgs(g, n, [i]) == [Denote(g, i)];
  }

  /** A node made by reduce(f) over inputs a and b stands for f of their two values. */
  lemma DenoteReduced2(g: Graph, n: Id, a: Id, b: Id, f: seq<int> -> int)
    requires WF(g) && n < |g.nodes| && g.nodes[n].kind == Computed([a, b], f)
    ensures a < n && b < n && !g.nodes[a].kind.Effect? && !g.nodes[b].kind.Effect?
    ensures Denote(g, n) == f([Denote(g, a), Denote(g, b)])
  {
    assert EdgesUp(g.nodes, n) && a in [a, b] && b in [a, b];
    assert [a, b][1..] == [b];
    assert DenoteArgs(g, n, [b]) == [Denote(g, b)];
    assert DenoteArgs(g, n, [a, b]) == [Denote(g, a), Denote(g, b)];
  }

  // ---------------------------------------------------------------------------------
  // The invariants.

  /** Ownership as the handles keep it: a live computed node holds its inputs, so they
      are alive, and it is registered in each input's weak list. */
  ghost predicate Owned(g: Graph) {
    forall n, i ::
      (n in g.alive && n < |g.nodes| && g.nodes[n].kind.Computed? && i in g.nodes[n].kind.inputs)
      ==> i in g.alive && i < |g.nodes| && n in g.nodes[i].weak
  }

  /** Every live computed node that claims to be up to date caches its true value. */
  ghost predicate Coherent(g: Graph)
    requires WF(g)
  {
    forall n ::
      (0 <= n < |g.nodes| && n in g.alive && g.nodes[n].kind.Computed? && g.nodes[n].upToDate)
      ==> g.nodes[n].cache == Denote(g, n)
  }

  ghost predicate Inv(g: Graph) {
    WF(g) && Owned(g) && Coherent(g)
  }

  /** No live node has an observer. */
  ghost predicate NoEffects(g: Graph) {
    forall n :: n in g.alive && n < |g.nodes| ==> g.nodes[n].sticky == []
  }

  /** Every wave id any node has recorded is below the id the counter hands out next. */
  ghost predicate WavesBelow(g: Graph) {
    ValidCounter(g.counter) &&
    forall i :: 0 <= i < |g.nodes| ==> g.nodes[i].lastWave < NextId(g.counter).0
  }

  // ---------------------------------------------------------------------------------
  // Reads.

  lemma CachesOnlyFace(g: Graph, r: Graph)
    requires WF(g) && WF(r) && CachesOnly(g, r)
    ensures forall i :: 0 <= i < |g.nodes| ==> SameFace(g.nodes[i], r.nodes[i])
    ensures Owned(g) ==> Owned(r)
  {
    forall i | 0 <= i < |g.nodes| ensures SameFace(g.nodes[i], r.nodes[i]) && r.nodes[i].weak == g.nodes[i].weak {
      assert r.nodes[i] == g.nodes[i].(upToDate := r.nodes[i].upToDate, cache := r.nodes[i].cache);
    }
  }

  /** From coherent caches, whether or not the nodes below are up to date, now() of a
      live node returns its value from scratch and keeps the caches coherent. */
  lemma {:induction false} NowCorrect(g: Graph, n: Id)
    requires Inv(g) && n < |g.nodes| && n in g.alive && !g.nodes[n].kind.Effect?
    ensures Now(g, n).0 == Denote(g, n) && Inv(Now(g, n).1)
    decreases n, 1
  {
    assert EdgesUp(g.nodes, n);
    match g.nodes[n].kind
    case Source =>
    case Computed(ins, f) =>
      if !g.nodes[n].upToDate {
        var (args, g1) := Pull(g, n, ins, 0, []);
        PullCorrect(g, n, ins, 0, []);
        assert ins[0..] == ins;
        CachesOnlyFace(g, g1);
        DenoteFrame(g, g1, n);
        var r := Cache(g1, n, f(args));
        assert CachesOnly(g1, r);
        CachesOnlyWF(g1, r);
        CachesOnlyFace(g1, r);
        DenoteFrameAll(g1, r);
        assert r == Now(g, n).1;
        assert args == DenoteArgs(g, n, ins);
        assert Denote(g, n) == f(DenoteArgs(g, n, ins));
        assert r.nodes[n].cache == Denote(r, n);
      }
  }

  /** callFunc's arguments from position i on are the inputs' true values, and the
      caches stay coherent. */
  lemma {:induction false} PullCorrect(g: Graph, owner: Id, ins: seq<Id>, i: nat, args: seq<int>)
    requires Inv(g) && owner < |g.nodes| && i <= |ins|
    requires forall x :: x in ins ==> x < owner && !g.nodes[x].kind.Effect? && x in g.alive
    ensures forall x :: x in ins[i..] ==> x in ins
    ensures Pull(g, owner, ins, i, args).0 == args + DenoteArgs(g, owner, ins[i..])
    ensures Inv(Pull(g, owner, ins, i, args).1)
    decreases owner, 0, |ins| - i
  {
    if i < |ins| {
      assert ins[i] in ins;
      var (v, g1) := Now(g, ins[i]);
      NowCorrect(g, ins[i]);
      PullCorrect(g1, owner, ins, i + 1, args + [v]);
      CachesOnlyFace(g, g1);
      assert forall x :: x in ins[i..] ==> x in ins;
      DenoteArgsFrame(g, g1, owner, ins[i..]);
      assert ins[i..][0] == ins[i] && ins[i..][1..] == ins[i + 1..];
    } else {
      assert ins[i..] == [];
    }
  }

  // ---------------------------------------------------------------------------------
  // A changing set on a graph without observers.

  /** Slot b is slot a, possibly marked by wave w (lastWave := w, upToDate := false), with
      a weak list that lost at most expired entries. */
  ghost predicate Step(a: Node, b: Node, w: int, alive: set<Id>) {
    && (b.(weak := a.weak) == a || b.(weak := a.weak) == a.(lastWave := w, upToDate := false))
    && (forall x :: x in b.weak ==> x in a.weak)
    && (forall x :: x in a.weak && x in alive ==> x in b.weak)
  }

  /** A quiet pass of wave w: nodes are only marked and compacted; nothing is read,
      evaluated or fired. */
  ghost predicate Marks(g: Graph, r: Graph, w: int) {
    && |r.nodes| == |g.nodes| && r.alive == g.alive && r.counter == g.counter
    && r.log == g.log && r.evals == g.evals
    && forall i :: 0 <= i < |g.nodes| ==> Step(g.nodes[i], r.nodes[i], w, g.alive)
  }

  /** Every node that has recorded wave w and is not in S (the nodes still forwarding)
      has already passed it on to all its live weak outputs. */
  ghost predicate Closed(g: Graph, S: set<Id>, w: int) {
    forall x: Id, y: Id ::
      (x < |g.nodes| && g.nodes[x].lastWave == w && x !in S && y in g.nodes[x].weak && y in g.alive)
      ==> y < |g.nodes| && g.nodes[y].lastWave == w
  }

  lemma MarksTrans(g: Graph, h: Graph, r: Graph, w: int)
    requires Marks(g, h, w) && Marks(h, r, w)
    ensures Marks(g, r, w)
  {
    forall i | 0 <= i < |g.nodes| ensures Step(g.nodes[i], r.nodes[i], w, g.alive) {
      var a, b, c := g.nodes[i], h.nodes[i], r.nodes[i];
      assert Step(a, b, w, g.alive) && Step(b, c, w, g.alive);
      assert c.(weak := a.weak) == c.(weak := b.weak).(weak := a.weak);
    }
  }

  lemma MarksKeep(g: Graph, r: Graph, w: int)
    requires Marks(g, r, w)
    ensures NoEffects(g) ==> NoEffects(r)
    ensures forall i :: 0 <= i < |g.nodes| ==>
      && r.nodes[i].kind == g.nodes[i].kind && SameFace(g.nodes[i], r.nodes[i])
      && (g.nodes[i].lastWave == w ==> r.nodes[i].lastWave == w)
      && (r.nodes[i].lastWave != w ==> r.nodes[i].(weak := g.nodes[i].weak) == g.nodes[i])
  {
    forall i | 0 <= i < |g.nodes|
      ensures r.nodes[i].kind == g.nodes[i].kind && r.nodes[i].value == g.nodes[i].value
      ensures r.nodes[i].sticky == g.nodes[i].sticky
      ensures g.nodes[i].lastWave == w ==> r.nodes[i].lastWave == w
      ensures r.nodes[i].lastWave != w ==> r.nodes[i].(weak := g.nodes[i].weak) == g.nodes[i]
    {
      assert Step(g.nodes[i], r.nodes[i], w, g.alive);
      assert r.nodes[i].(weak := g.nodes[i].weak).sticky == r.nodes[i].sticky;
    }
  }

  lemma CleanMarks(g: Graph, n: Id, S: set<Id>, w: int)
    requires n < |g.nodes|
    ensures Marks(g, Clean(g, n), w)
    ensures Closed(g, S, w) ==> Closed(Clean(g, n), S, w)
  {
    var r := Clean(g, n);
    assert Step(g.nodes[n], r.nodes[n], w, g.alive);
    forall i | 0 <= i < |g.nodes| ensures Step(g.nodes[i], r.nodes[i], w, g.alive) {
      if i != n {
        assert r.nodes[i] == g.nodes[i];
      }
    }
  }

  /** Invalidating o for a new wave marks o and nothing else, and o now counts as a node
      still forwarding. */
  lemma InvalidateQuiet(g: Graph, o: Id, w: int, S: set<Id>)
    requires WF(g) && NoEffects(g) && o < |g.nodes| && g.nodes[o].lastWave != w
    requires Closed(g, S, w)
    ensures WF(Invalidate(g, o, w)) && NoEffects(Invalidate(g, o, w))
    ensures Marks(g, Invalidate(g, o, w), w) && Closed(Invalidate(g, o, w), S + {o}, w)
  {
    var h := Invalidate(g, o, w);
    assert WF(h) by {
      forall m | 0 <= m < |h.nodes| ensures EdgesUp(h.nodes, m) {
        assert EdgesUp(g.nodes, m);
      }
    }
    assert Marks(g, h, w) by {
      forall i | 0 <= i < |g.nodes| ensures Step(g.nodes[i], h.nodes[i], w, g.alive) {
        if i != o {
          assert h.nodes[i] == g.nodes[i];
        }
      }
    }
    MarksKeep(g, h, w);
    forall x: Id, y: Id | x < |h.nodes| && h.nodes[x].lastWave == w && x !in S + {o} && y in h.nodes[x].weak && y in h.alive
      ensures y < |h.nodes| && h.nodes[y].lastWave == w
    {
      assert h.nodes[x] == g.nodes[x];
    }
  }

  /** Once o has forwarded to all its live weak outputs, it no longer needs to count as
      forwarding. */
  lemma ForwardCloses(h: Graph, r: Graph, o: Id, w: int, S: set<Id>)
    requires WF(h) && o < |h.nodes| && Marks(h, r, w) && Closed(r, S + {o}, w)
    requires forall y :: y in h.nodes[o].weak && y in h.alive && y < |h.nodes| ==> r.nodes[y].lastWave == w
    ensures Closed(r, S, w)
  {
    forall x: Id, y: Id | x < |r.nodes| && r.nodes[x].lastWave == w && x !in S && y in r.nodes[x].weak && y in r.alive
      ensures y < |r.nodes| && r.nodes[y].lastWave == w
    {
      if x == o {
        assert Step(h.nodes[x], r.nodes[x], w, h.alive);
        assert y in h.nodes[o].weak;
        assert EdgesUp(h.nodes, o);
      }
    }
  }

  /** Signal of a live computed node on a graph without live observers is quiet; the
      node has recorded w afterwards, and forwarding closed every node it started. */
  lemma {:induction false} SignalQuiet(g: Graph, o: Id, w: int, S: set<Id>)
    requires WF(g) && NoEffects(g) && o < |g.nodes| && o in g.alive && g.nodes[o].kind.Computed?
    requires Closed(g, S, w)
    ensures Marks(g, Signal(g, o, w), w) && Closed(Signal(g, o, w), S, w)
    ensures Signal(g, o, w).nodes[o].lastWave == w
    decreases |g.nodes| - o, 3
  {
    if g.nodes[o].lastWave == w {
      forall i | 0 <= i < |g.nodes| ensures Step(g.nodes[i], g.nodes[i], w, g.alive) {
        assert g.nodes[i].(weak := g.nodes[i].weak) == g.nodes[i];
      }
    } else {
      InvalidateQuiet(g, o, w, S);
      var h := Invalidate(g, o, w);
      ForwardQuiet(h, o, w, S + {o});
      var r := Forward(h, o, w);
      assert r == Signal(g, o, w);
      MarksTrans(g, h, r, w);
      MarksKeep(h, r, w);
      ForwardCloses(h, r, o, w, S);
    }
  }

  /** forwardSignal from a live node without observers is quiet and leaves every live
      weak output of n marked with w. */
  lemma {:induction false} ForwardQuiet(g: Graph, n: Id, w: int, S: set<Id>)
    requires WF(g) && NoEffects(g) && n < |g.nodes| && n in g.alive && n in S
    requires Closed(g, S, w)
    ensures Marks(g, Forward(g, n, w), w) && Closed(Forward(g, n, w), S, w)
    ensures forall y :: y in g.nodes[n].weak && y in g.alive && y < |g.nodes| ==>
      Forward(g, n, w).nodes[y].lastWave == w
    decreases |g.nodes| - n, 2
  {
    assert EdgesUp(g.nodes, n);
    ForwardOrder(g, n, w);
    var t := Targets(g, n);
    assert t == Compact(g.nodes[n].weak, g.alive);
    SignalAllQuiet(g, n, t, w, S);
    var h := SignalAll(g, t, w);
    if HasExpired(g, n) {
      CleanMarks(h, n, S, w);
      MarksTrans(g, h, Clean(h, n), w);
      MarksKeep(h, Clean(h, n), w);
    }
  }

  lemma {:induction false} SignalAllQuiet(g: Graph, n: Id, targets: seq<Id>, w: int, S: set<Id>)
    requires WF(g) && NoEffects(g) && n < |g.nodes|
    requires forall t :: t in targets ==> n < t < |g.nodes| && t in g.alive && g.nodes[t].kind.Computed?
    requires Closed(g, S, w)
    ensures Marks(g, SignalAll(g, targets, w), w) && Closed(SignalAll(g, targets, w), S, w)
    ensures forall t :: t in targets ==> SignalAll(g, targets, w).nodes[t].lastWave == w
    decreases |g.nodes| - n, 1, |targets|
  {
    if targets == [] {
      forall i | 0 <= i < |g.nodes| ensures Step(g.nodes[i], g.nodes[i], w, g.alive) {
        assert g.nodes[i].(weak := g.nodes[i].weak) == g.nodes[i];
      }
    } else {
      var t0 := targets[0];
      assert t0 in targets && forall t :: t in targets[1..] ==> t in targets;
      SignalQuiet(g, t0, w, S);
      var g1 := Signal(g, t0, w);
      MarksKeep(g, g1, w);
      SignalAllQuiet(g1, n, targets[1..], w, S);
      var r := SignalAll(g1, targets[1..], w);
      assert r == SignalAll(g, targets, w);
      MarksTrans(g, g1, r, w);
      MarksKeep(g1, r, w);
      forall t | t in targets ensures r.nodes[t].lastWave == w {
        if t != t0 {
          assert t in targets[1..];
        }
      }
    }
  }

  /** A node of g that is not s and was not marked by wave w in r, when every live weak
      output of s and of every marked node is marked, keeps its value once s changes
      (g to h). */
  lemma {:induction false} DenoteKept(g: Graph, h: Graph, r: Graph, s: Id, w: int, n: Id)
    requires WF(g) && WF(h) && Owned(g) && |h.nodes| == |g.nodes| && |r.nodes| == |g.nodes|
    requires s < |g.nodes| && forall i :: 0 <= i < |g.nodes| && i != s ==> SameFace(g.nodes[i], h.nodes[i])
    requires forall x: Id, y: Id ::
      (x < |g.nodes| && (x == s || r.nodes[x].lastWave == w) && y in g.nodes[x].weak && y in g.alive && y < |g.nodes|)
      ==> r.nodes[y].lastWave == w
    requires n < |g.nodes| && n in g.alive && n != s && !g.nodes[n].kind.Effect? && r.nodes[n].lastWave != w
    ensures !h.nodes[n].kind.Effect? && Denote(h, n) == Denote(g, n)
    decreases n, 1
  {
    assert SameFace(g.nodes[n], h.nodes[n]);
    assert EdgesUp(g.nodes, n);
    match g.nodes[n].kind
    case Source =>
    case Computed(ins, f) =>
      forall i | i in ins ensures i in g.alive && i != s && r.nodes[i].lastWave != w {
        assert n in g.nodes[i].weak;
      }
      DenoteArgsKept(g, h, r, s, w, n, ins);
  }

  lemma {:induction false} DenoteArgsKept(g: Graph, h: Graph, r: Graph, s: Id, w: int, owner: Id, ins: seq<Id>)
    requires WF(g) && WF(h) && Owned(g) && |h.nodes| == |g.nodes| && |r.nodes| == |g.nodes|
    requires s < |g.nodes| && forall i :: 0 <= i < |g.nodes| && i != s ==> SameFace(g.nodes[i], h.nodes[i])
    requires forall x: Id, y: Id ::
      (x < |g.nodes| && (x == s || r.nodes[x].lastWave == w) && y in g.nodes[x].weak && y in g.alive && y < |g.nodes|)
      ==> r.nodes[y].lastWave == w
    requires owner < |g.nodes|
    requires forall x :: x in ins ==>
      x < owner && !g.nodes[x].kind.Effect? && x in g.alive && x != s && r.nodes[x].lastWave != w
    ensures forall x :: x in ins ==> !h.nodes[x].kind.Effect?
    ensures DenoteArgs(h, owner, ins) == DenoteArgs(g, owner, ins)
    decreases owner, 0, |ins|
  {
    assert forall x :: x in ins ==> SameFace(g.nodes[x], h.nodes[x]);
    if ins != [] {
      assert ins[0] in ins && forall x :: x in ins[1..] ==> x in ins;
      DenoteKept(g, h, r, s, w, ins[0]);
      DenoteArgsKept(g, h, r, s, w, owner, ins[1..]);
    }
  }

  /** A quiet pass of wave w from source s, started on h (g with a new value at s) in
      which no node had recorded w, keeps the invariant. */
  lemma PassKeepsInv(g: Graph, h: Graph, r: Graph, s: Id, w: int)
    requires Inv(g) && WF(h) && WF(r) && s < |g.nodes| && g.nodes[s].kind.Source?
    requires |h.nodes| == |g.nodes| && h.alive == g.alive
    requires forall i :: 0 <= i < |g.nodes| && i != s ==> h.nodes[i] == g.nodes[i]
    requires h.nodes[s] == g.nodes[s].(value := h.nodes[s].value)
    requires forall i :: 0 <= i < |h.nodes| ==> h.nodes[i].lastWave != w
    requires Marks(h, r, w) && Closed(r, {s}, w)
    requires forall y :: y in h.nodes[s].weak && y in h.alive && y < |h.nodes| ==> r.nodes[y].lastWave == w
    ensures Inv(r)
  {
    MarksKeep(h, r, w);
    assert Owned(r) by {
      forall n, i | n in r.alive && n < |r.nodes| && r.nodes[n].kind.Computed? && i in r.nodes[n].kind.inputs
        ensures i in r.alive && i < |r.nodes| && n in r.nodes[i].weak
      {
        assert Step(h.nodes[i], r.nodes[i], w, h.alive);
      }
    }
    forall x: Id, y: Id | x < |g.nodes| && (x == s || r.nodes[x].lastWave == w) && y in g.nodes[x].weak && y in g.alive && y < |g.nodes|
      ensures r.nodes[y].lastWave == w
    {
      assert Step(h.nodes[x], r.nodes[x], w, h.alive);
    }
    DenoteFrameAll(h, r);
    forall n | 0 <= n < |r.nodes| && n in r.alive && r.nodes[n].kind.Computed? && r.nodes[n].upToDate
      ensures r.nodes[n].cache == Denote(r, n)
    {
      assert Step(h.nodes[n], r.nodes[n], w, h.alive);
      DenoteKept(g, h, r, s, w, n);
    }
  }

  /** VarNode::set on a live source of a coherent graph without observers, on a wave id
      no node has recorded: afterwards every live computed node either is marked stale or
      still caches its true value under the new source value; nothing is evaluated and
      no effect runs. */
  lemma SetCoherent(g: Graph, s: Id, v: int)
    requires Inv(g) && NoEffects(g) && s < |g.nodes| && s in g.alive && g.nodes[s].kind.Source?
    requires forall i :: 0 <= i < |g.nodes| ==> g.nodes[i].lastWave != NextId(g.counter).0
    ensures Inv(Set(g, s, v)) && NoEffects(Set(g, s, v))
    ensures Set(g, s, v).log == g.log && Set(g, s, v).evals == g.evals
  {
    if g.nodes[s].value != v {
      var (w, c) := NextId(g.counter);
      var h := g.(nodes := g.nodes[s := g.nodes[s].(value := v)], counter := c);
      assert WF(h) by {
        forall m | 0 <= m < |h.nodes| ensures EdgesUp(h.nodes, m) {
          assert EdgesUp(g.nodes, m);
        }
      }
      assert forall i :: 0 <= i < |g.nodes| && i != s ==> h.nodes[i] == g.nodes[i];
      ForwardQuiet(h, s, w, {s});
      var r := Forward(h, s, w);
      assert r == Set(g, s, v);
      MarksKeep(h, r, w);
      PassKeepsInv(g, h, r, s, w);
    }
  }

  /** The ids below n. */
  function Upto(n: nat): (r: set<Id>)
    ensures forall x: Id :: x in r <==> x < n
  {
    if n == 0 then {} else Upto(n - 1) + {n - 1}
  }

  /** With S every node, Closed says nothing, so the quiet-pass lemmas give laziness on
      their own: a changing set on a graph without live observers evaluates nothing and
      calls no effect; it only marks nodes stale and compacts weak lists. */
  lemma SetLazy(g: Graph, s: Id, v: int)
    requires WF(g) && NoEffects(g) && s < |g.nodes| && s in g.alive && g.nodes[s].kind.Source?
    ensures Set(g, s, v).log == g.log && Set(g, s, v).evals == g.evals
    ensures forall i :: 0 <= i < |g.nodes| ==>
      Set(g, s, v).nodes[i].cache == g.nodes[i].cache &&
      (Set(g, s, v).nodes[i].upToDate ==> g.nodes[i].upToDate)
  {
    if g.nodes[s].value != v {
      var (w, c) := NextId(g.counter);
      var h := g.(nodes := g.nodes[s := g.nodes[s].(value := v)], counter := c);
      assert WF(h) by {
        forall m | 0 <= m < |h.nodes| ensures EdgesUp(h.nodes, m) {
          assert EdgesUp(g.nodes, m);
        }
      }
      ForwardQuiet(h, s, w, Upto(|h.nodes|));
      var r := Forward(h, s, w);
      assert r == Set(g, s, v);
      forall i | 0 <= i < |g.nodes| ensures r.nodes[i].cache == g.nodes[i].cache && (r.nodes[i].upToDate ==> g.nodes[i].upToDate) {
        assert Step(h.nodes[i], r.nodes[i], w, h.alive);
      }
    }
  }

  // ---------------------------------------------------------------------------------
  // The invariant holds from the start and every operation keeps it.

  lemma EmptyInv()
    ensures Inv(Empty) && NoEffects(Empty) && WavesBelow(Empty)
  {
  }

  lemma NowKeepsWaves(g: Graph, n: Id)
    requires WF(g) && n < |g.nodes| && !g.nodes[n].kind.Effect? && WavesBelow(g)
    ensures WavesBelow(Now(g, n).1)
    ensures NoEffects(g) ==> NoEffects(Now(g, n).1)
  {
    var r := Now(g, n).1;
    forall i | 0 <= i < |g.nodes| ensures r.nodes[i].lastWave == g.nodes[i].lastWave && r.nodes[i].sticky == g.nodes[i].sticky {
      assert r.nodes[i] == g.nodes[i].(upToDate := r.nodes[i].upToDate, cache := r.nodes[i].cache);
    }
  }

  /** Wave ids stay below the next id across a changing set as long as the counter has
      not reached its last id, 255; the first 254 waves of a fresh engine qualify. */
  lemma SetKeepsWaves(g: Graph, s: Id, v: int)
    requires WF(g) && s < |g.nodes| && g.nodes[s].kind.Source? && WavesBelow(g)
    requires NextId(g.counter).0 < 255
    ensures WavesBelow(Set(g, s, v))
  {
    if g.nodes[s].value != v {
      var (w, c) := NextId(g.counter);
      var h := g.(nodes := g.nodes[s := g.nodes[s].(value := v)], counter := c);
      assert WF(h) by {
        forall m | 0 <= m < |h.nodes| ensures EdgesUp(h.nodes, m) {
          assert EdgesUp(g.nodes, m);
        }
      }
      var r := Forward(h, s, w);
      assert r == Set(g, s, v);
      assert c == w + 1 && NextId(c).0 == w + 1;
    }
  }

  /** The whole invariant across a changing set, while the counter has not wrapped. */
  lemma SetKeepsInv(g: Graph, s: Id, v: int)
    requires Inv(g) && NoEffects(g) && WavesBelow(g) && NextId(g.counter).0 < 255
    requires s < |g.nodes| && s in g.alive && g.nodes[s].kind.Source?
    ensures Inv(Set(g, s, v)) && NoEffects(Set(g, s, v)) && WavesBelow(Set(g, s, v))
  {
    SetCoherent(g, s, v);
    SetKeepsWaves(g, s, v);
  }

  /** The wrap-around hazard: a mapped node that last took the very id the counter hands
      out next ignores the wave, keeps claiming to be up to date with its old (coherent)
      cache, and is no longer coherent once the source changes its mapped value. */
  lemma WaveCollision(g: Graph, fn: int -> int, v: int)
    requires WF(g) && |g.nodes| == 2 && g.alive == {0, 1}
    requires g.nodes[0].kind == Source && g.nodes[0].weak == [1] && g.nodes[0].sticky == []
    requires g.nodes[1].kind == Computed([0], Unary(fn)) && g.nodes[1].upToDate
    requires g.nodes[1].cache == fn(g.nodes[0].value) && fn(v) != g.nodes[1].cache
    requires g.nodes[1].lastWave == NextId(g.counter).0
    ensures Set(g, 0, v).nodes[1] == g.nodes[1] && !Coherent(Set(g, 0, v))
  {
    var r := Set(g, 0, v);
    CollidingPass(g, v);
    assert r.nodes[1] == g.nodes[1];
    DenoteMapped(r, 1, 0, fn);
    assert r.nodes[1].cache != Denote(r, 1);
  }

  lemma CollidingPass(g: Graph, v: int)
    requires WF(g) && |g.nodes| == 2 && g.alive == {0, 1} && g.nodes[0].value != v
    requires g.nodes[0].kind == Source && g.nodes[0].weak == [1] && g.nodes[0].sticky == []
    requires g.nodes[1].kind.Computed? && g.nodes[1].lastWave == NextId(g.counter).0
    ensures Set(g, 0, v).nodes[1] == g.nodes[1] && Set(g, 0, v).nodes[0].kind.Source?
  {
    var (w, c) := NextId(g.counter);
    var h := g.(nodes := g.nodes[0 := g.nodes[0].(value := v)], counter := c);
    assert WF(h) by {
      forall m | 0 <= m < |h.nodes| ensures EdgesUp(h.nodes, m) {
        assert EdgesUp(g.nodes, m);
      }
    }
    assert Set(g, 0, v) == Forward(h, 0, w);
    assert Compact([1], h.alive) == [1] by {
      assert [1][..0] == [];
    }
    assert Targets(h, 0) == [1];
    assert !HasExpired(h, 0);
    ForwardToOne(h, 0, w, 1);
    SignalSameWave(h, 1, w);
  }

  /** Owned(g) read at one input edge. */
  lemma OwnedAt(g: Graph, m: Id, i: Id)
    requires Owned(g) && m in g.alive && m < |g.nodes| && g.nodes[m].kind.Computed? && i in g.nodes[m].kind.inputs
    ensures i in g.alive && i < |g.nodes| && m in g.nodes[i].weak
  {
  }

  lemma NewVarKeepsInv(g: Graph, value: int)
    requires Inv(g)
    ensures Inv(NewVar(g, value).1)
    ensures NoEffects(g) ==> NoEffects(NewVar(g, value).1)
    ensures WavesBelow(g) ==> WavesBelow(NewVar(g, value).1)
  {
    var r := NewVar(g, value).1;
    DenoteFrameAll(g, r);
    assert Owned(r) by {
      forall m, i | m in r.alive && m < |r.nodes| && r.nodes[m].kind.Computed? && i in r.nodes[m].kind.inputs
        ensures i in r.alive && i < |r.nodes| && m in r.nodes[i].weak
      {
        assert m < |g.nodes| && r.nodes[m] == g.nodes[m];
        OwnedAt(g, m, i);
      }
    }
  }

  lemma ReduceKeepsInv(g: Graph, ins: seq<Id>, f: seq<int> -> int)
    requires Inv(g)
    requires forall x :: x in ins ==> x < |g.nodes| && x in g.alive && !g.nodes[x].kind.Effect?
    ensures Inv(Reduce(g, ins, f).1)
    ensures NoEffects(g) ==> NoEffects(Reduce(g, ins, f).1)
    ensures WavesBelow(g) ==> WavesBelow(Reduce(g, ins, f).1)
  {
    var (n, r) := Reduce(g, ins, f);
    ReduceRegisters(g, ins, f);
    assert forall i :: 0 <= i < n ==> SameFace(g.nodes[i], r.nodes[i]) && r.nodes[i].sticky == g.nodes[i].sticky;
    DenoteFrameAll(g, r);
    assert Owned(r) by {
      forall m, i | m in r.alive && m < |r.nodes| && r.nodes[m].kind.Computed? && i in r.nodes[m].kind.inputs
        ensures i in r.alive && i < |r.nodes| && m in r.nodes[i].weak
      {
        if m == n {
          assert i in ins && i < n;
          assert multiset(ins)[i] > 0;
          assert Repeat(n, multiset(ins)[i])[0] == n;
        } else {
          assert m < n && m in g.alive;
          assert m in g.nodes[i].weak;
        }
      }
    }
  }

  lemma ObserveKeepsInv(g: Graph, i: Id)
    requires Inv(g) && i < |g.nodes| && i in g.alive && !g.nodes[i].kind.Effect?
    ensures Inv(Observe(g, i).1)
    ensures WavesBelow(g) ==> WavesBelow(Observe(g, i).1)
  {
    var (n, r) := Observe(g, i);
    ObserveRegisters(g, i);
    assert forall k :: 0 <= k < n ==> SameFace(g.nodes[k], r.nodes[k]) && r.nodes[k].weak == g.nodes[k].weak;
    DenoteFrameAll(g, r);
  }

  /** Dropping a node no live computed node holds keeps the invariant. */
  lemma DropKeepsInv(g: Graph, n: Id)
    requires Inv(g) && n < |g.nodes|
    requires forall m :: m in g.alive && m < |g.nodes| && g.nodes[m].kind.Computed? ==> n !in g.nodes[m].kind.inputs
    ensures Inv(Drop(g, n))
    ensures NoEffects(g) ==> NoEffects(Drop(g, n))
    ensures WavesBelow(g) ==> WavesBelow(Drop(g, n))
  {
    assert EdgesUp(g.nodes, n);
    var r := Drop(g, n);
    assert Owned(r) by {
      forall m, i | m in r.alive && m < |r.nodes| && r.nodes[m].kind.Computed? && i in r.nodes[m].kind.inputs
        ensures i in r.alive && i < |r.nodes| && m in r.nodes[i].weak
      {
        assert EdgesUp(g.nodes, m);
        assert i !in g.nodes[n].sticky;
      }
    }
    DenoteFrameAll(g, r);
  }

  lemma NumObserversKeepsInv(g: Graph, n: Id)
    requires Inv(g) && n < |g.nodes|
    ensures Inv(NumObservers(g, n).1)
    ensures NoEffects(g) ==> NoEffects(NumObservers(g, n).1)
    ensures WavesBelow(g) ==> WavesBelow(NumObservers(g, n).1)
  {
    var r := NumObservers(g, n).1;
    CleanEvolves(g, n, 0);
    assert forall k :: 0 <= k < |g.nodes| ==> SameFace(g.nodes[k], r.nodes[k]);
    DenoteFrameAll(g, r);
    assert Owned(r) by {
      forall m, i | m in r.alive && m < |r.nodes| && r.nodes[m].kind.Computed? && i in r.nodes[m].kind.inputs
        ensures i in r.alive && i < |r.nodes| && m in r.nodes[i].weak
      {
        assert g.nodes[m].kind == r.nodes[m].kind;
        OwnedAt(g, m, i);
      }
    }
  }
}

# minirx: a verified model of the push/pull reactive engine

minirx is a small C++ engine for incremental computation. A program builds a graph
from three kinds of node:

- **Vars** are source cells that the program can `set`.
- **Rx nodes** are computed with `map` or an n-ary `reduce`. Each caches its value,
  holds its inputs strongly, and is held weakly by them.
- **Observers** are effects. An observer hangs on a node's sticky (owning) output list
  and holds that node weakly.

Setting a Var to a different value takes a fresh 8-bit wave id from a process-wide
counter and pushes it down the graph:

- Every node forwards the wave to its live weak outputs in order, then to its sticky
  outputs. It compacts its weak list afterwards if an expired entry turned up.
- A computed node ignores a wave id equal to the last one it took. Otherwise it records
  the id, marks itself out of date and forwards the wave. This is why a diamond reaches
  its join once.
- An observer calls its effect with its input's `now()`.

Reading is pull-based. `now()` on a computed node returns the cache when the node is up
to date. Otherwise it pulls its inputs' `now()` in input order, applies its function,
caches the result and becomes up to date.

The model is an arena of nodes addressed by ids, with an explicit set of live ids in
place of reference counting. A combinator always creates a node after its inputs, so
every input has a smaller id and every output a larger one. That gives the termination
measure for reading and for propagation.

- `RxGraph` (graph.dfy) holds the engine state as a value and one pure function per
  engine operation.
- `RxArena.Arena` (arena.dfy) is the engine as the C++ code runs it: a class whose
  fields are updated in place, with loops over the output lists. Each method is proved
  to equal the matching `RxGraph` function on `Model()`.
- `Waves` (waves.dfy) is the wave-id allocator.
- `Outputs` (outputs.dfy) is the compaction of a weak list.
- `RxLaws` (laws.dfy) states the propagation and reading rules as lemmas. Some of
  them (SignalSameWave, NowCached, NowSource, ObserverSignal) only spell out one
  step of a definition. The laws proper are ForwardOrder, SignalTwice, NowTwice and
  the pass lemmas.
- `RxCoherence` (coherence.dfy) defines the value of every node computed from scratch
  (`Denote`). It proves that, from coherent caches, `now()` returns that value and
  keeps the caches coherent, and that caches stay coherent across a `set` when no
  observer interferes.
- `RxScenarios` (scenarios.dfy) replays each case of test/tests.cpp as client code of
  the arena and proves the values and counts the test expects.
- `RxDeferred` (deferred.dfy) is the corrected `set` described under Findings.

Values are integers. An observer's effect appends `Fire(observer, value)` to a log.
`RX_EVALUATE_COUNT` is the `evals` field.

The wave counter is a field in 0..255, as in the code. `nextSignalId` resets 0 to 1,
returns the counter, then post-increments it with uint8_t wrap-around. The counter can
therefore hold 0 between calls (after handing out 255), but an id of 0 is never handed
out.

## Model

| member | source | states |
|---|---|---|
| Waves.NextId | rx.h:307-312 | a handed-out id is never the sentinel 0 and lies in 1..255; the counter stays a uint8_t |
| Waves.NextIdSuccessor | rx/Var.h:18-23 | two successive calls return consecutive ids on the cycle 1, 2, ..., 255, 1, ... |
| Waves.IdsCycle | rx.h:307-312 | the j-th id handed out from any counter is j steps around the cycle 1..255 from the first, and never 0 |
| Waves.FromStart | rx.h:313-315 | from the initial counter 1, the ids are 1, 2, ..., 255, 1, 2, ... |
| Outputs.Compact | rx.h:73-81 | the compacted list holds exactly the live entries and is never longer |
| Outputs.CompactAppend | rx/ReactiveTraits.h:72-81 | compaction works entry by entry, so the survivors keep their relative order |
| Outputs.CompactCount | rx.h:73-81 | each live entry keeps its multiplicity, and every expired entry is removed |
| Outputs.CompactAllAlive | rx.h:67-69 | with no expired entry, compaction changes nothing |
| Outputs.CompactIdempotent | rx.h:73-81 | compacting twice is the same as compacting once |
| RxGraph.Now | rx.h:212-232 | now() changes only caches, validity flags and the evaluation count; kinds, lists, waves, values and the log are unchanged |
| RxGraph.Pull | rx.h:228-232 | callFunc pulls one value per input, changing only caches |
| RxGraph.Signal | rx.h:98-107 | a pass from a node keeps kinds, sticky lists, values, liveness and the counter; lastWave only becomes the wave; the log only grows; weak lists only lose expired entries |
| RxGraph.Forward | rx.h:55-70 | forwardSignal changes no weak list but its own among the nodes at or below n, and no lastWave at or below n; caches may still change there, through the reads of observers reached during the pass; everything else follows the same rules as Signal |
| RxGraph.SignalWeak | rx.h:56-63 | the cleanup flag ends true exactly when an expired weak entry was met |
| RxGraph.SignalSticky | rx.h:64-66 | signalling the sticky list follows the pass rules of Signal |
| RxGraph.Set | rx.h:327-332 | an equal value changes nothing; a different value is stored and consumes exactly one wave id |
| RxGraph.NewVar | rx.h:354-357 | Var(v) appends a live Source node holding v, under the next id; every existing node, the counter, the log and the evaluation count are unchanged, and the graph stays well formed |
| RxGraph.Reduce | rx.h:264-274 | reduce gives an id larger than every input's and leaves the graph well formed |
| RxGraph.Observe | rx.h:166-174 | observe gives the next id and leaves the graph well formed |
| RxGraph.Drop | rx.h:83-84 | releasing the last owner of a node that no live computed node reads expires exactly that node and the observers its sticky list held; every other node stays alive; the nodes, the counter, the log and the evaluation count are unchanged |
| RxGraph.NumObservers | rx.h:347-350 | numObservers compacts first and then counts; the list keeps exactly the live weak outputs |
| RxGraph.AddOutputsEffect | rx.h:280-289 | setOutputs appends the new node to each input's weak list, once per occurrence, at the end, and changes nothing else |
| RxGraph.CleanEvolves | rx.h:73-81 | _clean changes no node but n, and of n only its weak list, from which it removes only expired entries and keeps every live one; liveness, the counter, the log and the evaluation count are unchanged, and the graph stays well formed |
| RxArena.Arena.constructor | rx.h:313-315 | the engine starts empty with the counter at 1 |
| RxArena.Arena.NextSignalId | rx.h:307-312 | the counter update and the returned id are NextId's |
| RxArena.Arena.AddOutput | rx.h:30-32 | addOutput appends one entry to the weak list, without dedup, and nothing else changes (the function RxGraph.AddOutput) |
| RxArena.Arena.AddStickyOutput | rx.h:34-36 | addStickyOutput appends one entry to the sticky list, and nothing else changes (the function RxGraph.AddStickyOutput) |
| RxArena.Arena.Clean | rx.h:73-81 | the remove_if/erase loop leaves the weak list compacted, as the function RxGraph.Clean says |
| RxArena.Arena.Now | rx.h:212-232 | the in-place now() (and its input loop) has the effect and result of RxGraph.Now; the cache write is the function RxGraph.Cache |
| RxArena.Arena.Signal | rx.h:98-107 | the in-place signal (and ObserverNode::signal) has the effect of RxGraph.Signal; the lastWave update and receivedSignal are the function RxGraph.Invalidate |
| RxArena.Arena.Forward | rx.h:55-70 | the two loops of forwardSignal and the final cleanup have the effect of RxGraph.Forward |
| RxArena.Arena.Set | rx.h:327-332 | VarNode::set in place has the effect of RxGraph.Set |
| RxArena.Arena.NewVar | rx.h:340 | a new source node is appended, as RxGraph.NewVar says |
| RxArena.Arena.Reduce | rx.h:264-289 | the node creation and the setOutputs loop have the effect of RxGraph.Reduce; setOutputs is the function RxGraph.AddOutputs |
| RxArena.Arena.Map | rx.h:124-127 | map is a one-input reduce, as the function RxGraph.Map says |
| RxArena.Arena.Observe | rx.h:166-174 | the observer node is created and registered as a sticky output, as RxGraph.Observe says |
| RxArena.Arena.Drop | rx.h:83-84 | releasing the last owner of a node that no live computed node reads has the effect of RxGraph.Drop |
| RxArena.Arena.NumObservers | rx.h:347-350 | clean, then count, as RxGraph.NumObservers says |
| RxLaws.SignalAll | rx.h:55-66 | reference definition of signalling a list of targets in order; it keeps the arena size and liveness |
| RxLaws.SignalAllAppend | rx.h:57-66 | signalling a + b is signalling a, then b |
| RxLaws.Targets | rx.h:55-66 | every node a pass forwards to has a larger id |
| RxLaws.WeakPass | rx.h:57-63 | the weak loop signals exactly the live entries, in list order |
| RxLaws.StickyPass | rx.h:64-66 | the sticky loop signals every entry in list order |
| RxLaws.ForwardOrder | rx/ReactiveTraits.h:55-69 | forwardSignal signals the live weak outputs in order, then the sticky outputs in order, then compacts exactly when an expired entry was seen |
| RxLaws.ForwardToOne | rx.h:55-66 | with a single live target and nothing expired, forwarding is signalling that target |
| RxLaws.ForwardToTwo | rx.h:55-66 | with two live targets and nothing expired, forwarding signals the first, then the second |
| RxLaws.SignalHop | rx/ReactiveTraits.h:98-104 | a computed node on a new wave whose only output is one live weak entry invalidates itself and hands the wave to that entry, and does nothing else |
| RxLaws.ForwardCompaction | rx/ReactiveTraits.h:67-81 | after forwarding, the weak list is compacted if an expired entry was seen and untouched otherwise; the sticky list never changes |
| RxLaws.SignalSameWave | rx.h:98-99 | a computed node given the wave it last took changes nothing and forwards nothing (one step of the definition, spelled out) |
| RxLaws.SignalNewWave | rx.h:99-102 | a new wave is recorded as the node's last one |
| RxLaws.SignalTwice | rx/ReactiveTraits.h:98-104 | delivering the same wave twice is the same as delivering it once (diamond dedup) |
| RxLaws.ObserverSignal | rx.h:151-155 | an observer calls its effect once with its input's now() if the input is alive, and does nothing otherwise (one step of the definition, spelled out) |
| RxLaws.NowCached | rx.h:212-220 | an up-to-date node returns its cache and changes nothing (one step of the definition, spelled out) |
| RxLaws.NowSource | rx/Var.h:34-36 | a Var's now() returns its value with no side effect (one step of the definition, spelled out) |
| RxLaws.NowEvaluates | rx.h:212-232 | an out-of-date node returns its function over its inputs' now(), in input order, caches it, becomes up to date and counts one evaluation of its own |
| RxLaws.NowTwice | rx/Rx.h:43-52 | a second now() returns the same value and changes nothing |
| RxLaws.InvalidateKeepsCache | rx/Rx.h:39-41 | receivedSignal clears upToDate and leaves the cache alone |
| RxLaws.SetOneWave | rx/Var.h:38-43 | an equal set consumes no id; a changing set advances the counter once, and every node's lastWave is either unchanged or that one id |
| RxLaws.SetShape | rx.h:327-332 | a set changes no kind, sticky list or liveness and no value but the source's; the log only grows |
| RxLaws.ReduceRegisters | rx/Rx.h:95-120 | reduce appends the fresh node, adds it to the weak list of each input once per occurrence and to no other list, and changes no value, cache or flag |
| RxLaws.ReduceDistinct | rx.h:280-289 | over distinct inputs, each input's weak list gains exactly the new node at its end |
| RxLaws.ObserveRegisters | rx.h:166-174 | observe appends an observer on the node, adds it to that node's sticky list only, and fires nothing |
| RxCoherence.DenoteFrame | rx.h:212-232 | the value from scratch depends only on the kinds and source values at and below the node |
| RxCoherence.DenoteFrameAll | rx.h:212-232 | the same, for every node at once |
| RxCoherence.DenoteMapped | rx.h:124-127 | a mapped node's value from scratch is fn of its input's |
| RxCoherence.DenoteReduced2 | rx.h:264-267 | a two-input reduce's value from scratch is f of its inputs' |
| RxCoherence.CachesOnlyFace | rx.h:212-221 | reading keeps every kind and value, and keeps the ownership invariant |
| RxCoherence.NowCorrect | rx.h:212-232 | from coherent caches, whether or not the nodes below are up to date, now() of a live node returns its value from scratch and keeps the caches coherent |
| RxCoherence.PullCorrect | rx.h:228-232 | callFunc pulls the inputs' values from scratch, in order, and keeps the caches coherent |
| RxCoherence.SignalQuiet | rx.h:98-107 | without observers, a pass only marks nodes (records the wave, clears upToDate) and drops expired weak entries, and every live output of a marked node gets marked |
| RxCoherence.ForwardQuiet | rx.h:55-70 | the same for one node's forwardSignal |
| RxCoherence.SignalAllQuiet | rx.h:57-66 | the same for a list of targets |
| RxCoherence.DenoteKept | rx.h:98-107 | a node the pass did not mark does not depend on the source that changed, so its value from scratch is unchanged |
| RxCoherence.SetCoherent | rx.h:327-332 | with no observer and a fresh wave id, a set keeps every up-to-date cache equal to its value from scratch, evaluates nothing and fires nothing |
| RxCoherence.SetLazy | rx/Rx.h:39-52 | without observers, a set evaluates nothing, changes no cache and never makes a node up to date |
| RxCoherence.EmptyInv | rx.h:313-315 | the empty engine satisfies the invariant |
| RxCoherence.NowKeepsWaves | rx.h:212-221 | reading keeps every recorded wave below the next id |
| RxCoherence.SetKeepsWaves | rx.h:307-312 | before the counter wraps, a set keeps every recorded wave below the next id |
| RxCoherence.SetKeepsInv | rx.h:327-332 | on a graph without observers, well formedness, ownership, coherence and fresh wave ids all survive a set before wrap-around |
| RxCoherence.WaveCollision | rx.h:98-99 | after wrap-around, a node whose last wave equals the next id ignores the new wave and keeps a stale cache that it claims is up to date |
| RxCoherence.CollidingPass | rx.h:98-99 | the wave that collides leaves the colliding node untouched |
| RxCoherence.NewVarKeepsInv | rx.h:340 | Var() keeps the invariant |
| RxCoherence.ReduceKeepsInv | rx.h:264-289 | reduce keeps the invariant |
| RxCoherence.ObserveKeepsInv | rx.h:166-174 | observe keeps the invariant |
| RxCoherence.DropKeepsInv | rx.h:83-84 | releasing a node that no live computed node reads keeps the invariant |
| RxCoherence.NumObserversKeepsInv | rx.h:347-350 | numObservers keeps the invariant |
| RxScenarios.VarsCanBeSet | test/tests.cpp:9-15 | a Var reads 0, then 5 after set(5) |
| RxScenarios.VarCanBeMapped | test/tests.cpp:23-35 | the half of a Var holding 10 reads 5, then 10 after set(20) |
| RxScenarios.ObserversCleanedUp | test/tests.cpp:37-49 | numObservers is 1 while the mapped handle exists and 0 after it is dropped |
| RxScenarios.MapsFollowSource | test/tests.cpp:51-74 | two maps read 10 and 100, then 20 and 200 after set(2), then 10 and 100 after set(1) |
| RxScenarios.SetProduct | rx/Rx.h:95-105 | a set on either source of a product keeps the graph's shape and coherence, with the new source value |
| RxScenarios.ProductFollowsSources | test/tests.cpp:76-98 | a two-input product reads 100, 200, 2000, 40000 |
| RxScenarios.ChainFollowsSource | test/tests.cpp:100-119 | in the chain r1 = 2x, r2 = 3r1, the reads give 2 and 6, then 60 and 20 after set(10) |
| RxScenarios.OnlyReadsEvaluate | test/tests.cpp:121-139 | two sets evaluate nothing; the read afterwards evaluates exactly once |
| RxScenarios.SetObservedVar | rx.h:151-155 | a set on an observed Var fires the observer once with the new value, or not at all when the value is equal |
| RxScenarios.VarsCanBeObserved | test/tests.cpp:141-160 | an observer on a Var fires 0, 1, 3 times |
| RxScenarios.SetObservedMap | rx.h:98-107 | a changing set reaches the observer of a mapped node once, with the mapped new value |
| RxScenarios.RxCanBeObserved | test/tests.cpp:162-185 | an observer on a mapped node fires 0, 1, 3 times |
| RxScenarios.EqualSetIsSilent | test/tests.cpp:187-201 | setting the value a Var already holds fires nothing |
| RxScenarios.DroppedObserverIsSilent | test/tests.cpp:203-223 | the observer fires on set(1); once the mapped handle is dropped, set(2) fires nothing |
| RxScenarios.DiamondRead | rx.h:212-232 | for any maps x = fx(time), y = fy(time) and any join of x and y, reading the stale join re-evaluates x, uses y's cache if y is up to date and fy(time) otherwise, and caches the joined value |
| RxScenarios.SetDiamond | rx/ReactiveTraits.h:98-104 | in any diamond time -> x, y -> join(x, y), whatever the maps and the join, a changing set calls the observer on the join exactly once, with the join as read mid-pass, and leaves the join up to date with that value |
| RxScenarios.MapStep | rx.h:124-127 | map(fn) over a live node appends a computed node over it alone and registers it last in that node's weak list, changing nothing else |
| RxScenarios.ReduceStep | rx.h:264-289 | reduce over two distinct live nodes appends a computed node over both and registers it last in each weak list, changing nothing else |
| RxScenarios.DiamondFiresOnce | test/tests.cpp:225-251 | the diamond's observer fires 0 times after construction and once after set(1) |
| RxScenarios.StaleJoin | rx.h:212-221 | x*y claiming to be up to date with 0 while time is 1 is not coherent |
| RxScenarios.DiamondGlitch | rx.h:55-66 | the diamond read at time 0 and then set to 1 calls its observer with 0, and x*y then reads 0 while its value from scratch is 10 |
| RxDeferred.Pending | rx.h:64-66 | the deferred notifications pair each observer with the node whose sticky list holds it |
| RxDeferred.Notify | rx.h:151-155 | notifying observers changes only caches, validity flags and the log |
| RxDeferred.NotifyCorrect | rx.h:151-155 | from coherent caches, each notification carries its input's value from scratch and the caches stay coherent |
| RxDeferred.SetDeferred | rx.h:327-332 | the corrected set runs the same pass with observer calls moved after it, and keeps the graph well formed |
| RxDeferred.SetDeferredCoherent | rx.h:327-332 | the corrected set keeps the caches coherent, and every observer it calls receives its input's value from scratch |

## Left out

- Reference counting (`shared_ptr`, `weak_ptr`) and destructor timing are not modelled. Liveness is the explicit `alive` set, and the release of a node's last owner is the explicit `Drop`. A computed node holds its inputs through `shared_ptr` (rx/ReactiveTraits.h:108), so `Drop` requires that no live computed node reads the released node.
- RxGraph.Drop: releasing a computed node does not release its inputs in cascade, because the model has no owner counts. An input simply stays alive.
- Template plumbing (`seq`, `gen_seq`, `decltype` return types, `dynamic_pointer_cast`) is not modelled. It is type recovery, and the model has one value type.
- Observer effects are not arbitrary functions. An effect appends to the log, so re-entrant `set` calls from inside an effect are not modelled.
- Values are integers, not floats. The float maps of test/tests.cpp:23-35 and 225-251 become integer functions that agree on the values those tests use.
- String Vars (test/tests.cpp:16-20) are not modelled, because the model has one value type.
- `Observable` (rx.h:9-15), `RxException` (rx.h:190-194) and `Rx::isCreated` (rx.h:251) are unused by the engine. rx/Observer.h is commented out.
- The C++ `cachedValue` is indeterminate until the first evaluation. The model shows it as 0, and no read can see it before the node is up to date.
- The evaluation order of the `now()` calls in `callFunc` is unspecified in C++. The model pulls inputs left to right.
- The C++ combinators are typed per arity. In the model a combining function takes a sequence, and `Unary` and `Product` return a fixed value on a sequence of the wrong length. reduce never builds one.
- RxCoherence.SetCoherent: proved only for graphs without observers, and only when no node has already recorded the next wave id. With observers, a set can leave a stale cache marked up to date (see Findings). After wrap-around a wave can collide with a recorded one (RxCoherence.WaveCollision).
- RxCoherence.SetKeepsInv: proved only on graphs without observers and before the counter wraps. It rests on RxCoherence.SetCoherent and RxCoherence.SetKeepsWaves and inherits their limits.
- RxCoherence.SetKeepsWaves: proved only while the next id is below 255, that is, before the counter wraps.

## Findings

| source | as written | input that shows it | evidently intended | confidence | as-written member | corrected member |
|---|---|---|---|---|---|---|
| rx.h:55-66 | forwardSignal runs each node's observers within that node's part of the depth-first pass. An observer therefore reads its input while sibling inputs not yet reached still hold caches from the previous value. The stale value is cached and kept as up to date. | The graph is time = Var(0), x = time*10, y = time*1, xy = x*y, with an observer on xy. Read xy, then time.set(1). The observer receives 0, and xy.now() then returns 0 where 10 is right. | Every value an observer or a later now() sees is computed from current inputs. now() is meant never to return a value computed from stale inputs; RxScenarios.DiamondGlitch shows that the code as written does. | not executed | RxScenarios.DiamondGlitch | RxDeferred.SetDeferred |

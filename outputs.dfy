/** Outputting's lazy compaction of its weak output list (Outputting::_clean in rx.h). */
module Outputs {

  /** _clean: std::remove_if over the weak list with "expired" as predicate, then erase.
      An entry is expired exactly when it is not in `alive`. */
  function Compact(s: seq<nat>, alive: set<nat>): (r: seq<nat>)
    ensures |r| <= |s|
    ensures forall x :: x in r <==> x in s && x in alive
    decreases |s|
  {
    if s == [] then []
    else Compact(s[..|s| - 1], alive) + (if s[|s| - 1] in alive then [s[|s| - 1]] else [])
  }

  /** Compaction keeps the relative order: it works entry by entry over any split. */
  lemma {:induction false} CompactAppend(a: seq<nat>, b: seq<nat>, alive: set<nat>)
    ensures Compact(a + b, alive) == Compact(a, alive) + Compact(b, alive)
    decreases |b|
  {
    if b == [] {
      assert a + b == a;
    } else {
      var b' := b[..|b| - 1];
      assert (a + b)[..|a + b| - 1] == a + b';
      CompactAppend(a, b', alive);
    }
  }

  /** Every occurrence of a live entry survives and every occurrence of an expired one is
      dropped. */
  lemma {:induction false} CompactCount(s: seq<nat>, alive: set<nat>, x: nat)
    ensures multiset(Compact(s, alive))[x] == if x in alive then multiset(s)[x] else 0
    decreases |s|
  {
    if s != [] {
      var p := s[..|s| - 1];
      assert s == p + [s[|s| - 1]];
      CompactCount(p, alive, x);
    }
  }

  /** A list with no expired entry is left exactly as it was. */
  lemma {:induction false} CompactAllAlive(s: seq<nat>, alive: set<nat>)
    requires forall x :: x in s ==> x in alive
    ensures Compact(s, alive) == s
    decreases |s|
  {
    if s != [] {
      var p := s[..|s| - 1];
      assert s == p + [s[|s| - 1]];
      CompactAllAlive(p, alive);
    }
  }

  /** Compacting twice is compacting once. */
  lemma CompactIdempotent(s: seq<nat>, alive: set<nat>)
    ensures Compact(Compact(s, alive), alive) == Compact(s, alive)
  {
    CompactAllAlive(Compact(s, alive), alive);
  }
}

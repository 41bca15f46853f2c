/** The wave-id allocator (class Signal in rx.h). A wave id is an 8-bit value; 0 is the
    sentinel meaning "no wave processed yet" and is never handed out. */
module Waves {

  /** The allocator's counter is a uint8_t. */
  predicate ValidCounter(c: int) {
    0 <= c < 256
  }

  /** Signal::nextSignalId: a zero counter is reset to 1, then the counter is returned and
      post-incremented with uint8_t wrap-around (255 + 1 == 0). Result: (id, new counter). */
  function NextId(c: int): (r: (int, int))
    requires ValidCounter(c)
    ensures 1 <= r.0 <= 255 && ValidCounter(r.1)
  {
    var id := if c == 0 then 1 else c;
    (id, (id + 1) % 256)
  }

  /** The first k ids that successive calls hand out, starting from counter c. */
  function Ids(c: int, k: nat): (ids: seq<int>)
    requires ValidCounter(c)
    ensures |ids| == k
    decreases k
  {
    if k == 0 then [] else [NextId(c).0] + Ids(NextId(c).1, k - 1)
  }

  /** Two successive calls return consecutive ids on the cycle 1, 2, ..., 255, 1, ... */
  lemma NextIdSuccessor(c: int)
    requires ValidCounter(c)
    ensures NextId(NextId(c).1).0 == NextId(c).0 % 255 + 1
  {
  }

  /** The j-th id handed out from counter c is the (j)-th step around the cycle 1..255
      from the first one; in particular no id is ever 0. */
  lemma {:induction false} IdsCycle(c: int, k: nat, j: nat)
    requires ValidCounter(c) && j < k
    ensures Ids(c, k)[j] == (NextId(c).0 - 1 + j) % 255 + 1
    ensures Ids(c, k)[j] != 0
    decreases k
  {
    if j > 0 {
      IdsCycle(NextId(c).1, k - 1, j - 1);
      NextIdSuccessor(c);
    }
  }

  /** From the initial counter value 1 the ids are 1, 2, ..., 255, 1, 2, ... */
  lemma FromStart(k: nat, j: nat)
    requires j < k
    ensures Ids(1, k)[j] == j % 255 + 1
  {
    IdsCycle(1, k, j);
  }
}

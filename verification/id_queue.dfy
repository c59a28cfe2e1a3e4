/** The factory's priority queue of issued identifiers (id_queue.go).

    `PriorityQueue` is a slice whose `Len`, `Less`, `Swap`, `Push` and `Pop`
    are the primitives `container/heap` drives. The heap library itself is
    outside this model: `heap.Push` is modelled as appending and `heap.Pop`
    as removing an element that no other element orders before, so the
    queue is described by its contents (a multiset) and the order it
    delivers, not by the heap layout. */
module IdQueue {
  import opened IdGenerator

  type PriorityQueue = seq<ID>

  /** The comparator (id_queue.go:8-15): earlier timestamp first; for equal
      timestamps, the smaller identifier value first. */
  predicate Before(a: ID, b: ID) {
    if a.timestamp == b.timestamp then a.idNum < b.idNum else a.timestamp < b.timestamp
  }

  /** Reference order: the pair (timestamp, identifier value) compared
      lexicographically. */
  predicate KeyBefore(a: ID, b: ID) {
    a.timestamp < b.timestamp || (a.timestamp == b.timestamp && a.idNum < b.idNum)
  }

  /** `pq.Less(i, j)`. */
  predicate Less(pq: PriorityQueue, i: int, j: int)
    requires 0 <= i < |pq| && 0 <= j < |pq|
  {
    Before(pq[i], pq[j])
  }

  /** The comparator is the lexicographic order on (timestamp, value), in
      both directions. */
  lemma BeforeIsKeyOrder(a: ID, b: ID)
    ensures Before(a, b) <==> KeyBefore(a, b)
  {
  }

  /** The comparator is a strict order, total on distinct keys: for two
      entries with different (timestamp, value) exactly one comes first. */
  lemma BeforeIsStrictTotal(a: ID, b: ID, c: ID)
    ensures !Before(a, a)
    ensures Before(a, b) && Before(b, c) ==> Before(a, c)
    ensures a != b ==> (Before(a, b) <==> !Before(b, a))
    ensures a == b ==> !Before(a, b) && !Before(b, a)
  {
  }

  /** `Len` (id_queue.go:6). */
  function Len(pq: PriorityQueue): (n: int) {
    |pq|
  }

  /** `Swap` (id_queue.go:17-19): exchanges two entries and nothing else. */
  function Swap(pq: PriorityQueue, i: int, j: int): (r: PriorityQueue)
    requires 0 <= i < |pq| && 0 <= j < |pq|
    ensures |r| == |pq| && r[i] == pq[j] && r[j] == pq[i]
    ensures forall k :: 0 <= k < |pq| && k != i && k != j ==> r[k] == pq[k]
    ensures multiset(r) == multiset(pq)
  {
    var r := pq[i := pq[j]][j := pq[i]];
    SwapKeepsContents(pq, i, j);
    r
  }

  lemma SwapKeepsContents(pq: PriorityQueue, i: int, j: int)
    requires 0 <= i < |pq| && 0 <= j < |pq|
    ensures multiset(pq[i := pq[j]][j := pq[i]]) == multiset(pq)
  {
    var t := pq[i := pq[j]];
    assert multiset(t) == multiset(pq) - multiset{pq[i]} + multiset{pq[j]};
  }

  /** `Push` (id_queue.go:22-25): appends at the end. */
  function Push(pq: PriorityQueue, x: ID): (r: PriorityQueue)
    ensures |r| == |pq| + 1 && r[|pq|] == x && r[..|pq|] == pq
  {
    pq + [x]
  }

  /** `Pop` (id_queue.go:28-35): removes and returns the last entry; an empty
      slice would make the source index out of range. */
  function Pop(pq: PriorityQueue): (r: (ID, PriorityQueue))
    requires |pq| > 0
    ensures r.0 == pq[|pq| - 1] && r.1 == pq[..|pq| - 1]
  {
    (pq[|pq| - 1], pq[..|pq| - 1])
  }

  /** `Pop` undoes `Push`, and `Push` undoes `Pop`. */
  lemma PushPopRoundTrip(pq: PriorityQueue, x: ID)
    ensures Pop(Push(pq, x)) == (x, pq)
    ensures |pq| > 0 ==> Push(Pop(pq).1, Pop(pq).0) == pq
  {
  }

  /** An element no element of q orders before. */
  predicate IsMinimal(x: ID, q: PriorityQueue) {
    forall y :: y in q ==> !Before(y, x)
  }

  /** `heap.Pop` as seen from outside: removes one minimal entry. */
  method ExtractMin(q: PriorityQueue) returns (x: ID, rest: PriorityQueue)
    requires |q| > 0
    ensures x in q && IsMinimal(x, q)
    ensures multiset(rest) + multiset{x} == multiset(q)
    ensures |rest| == |q| - 1
  {
    var m := 0;
    var i := 1;
    while i < |q|
      invariant 0 <= m < i <= |q|
      invariant forall k :: 0 <= k < i ==> !Before(q[k], q[m])
    {
      if Before(q[i], q[m]) {
        forall k | 0 <= k < i
          ensures !Before(q[k], q[i])
        {
          BeforeIsStrictTotal(q[k], q[i], q[m]);
        }
        m := i;
      }
      i := i + 1;
    }
    x := q[m];
    rest := q[..m] + q[m + 1..];
    assert q == q[..m] + [q[m]] + q[m + 1..];
  }

  /** No delivered entry is ordered before an earlier-delivered one. */
  predicate DeliveredInOrder(out: seq<ID>) {
    forall i, j :: 0 <= i < j < |out| ==> !Before(out[j], out[i])
  }
}

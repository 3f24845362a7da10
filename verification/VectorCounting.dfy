/** Counting queues by the MSI-X vector they are mapped to. Every reference count
    in the virtio-pci transport (the per-vector `users` of the irqfd table and the
    MSI-X use counts) is one of these counts. */
module VectorCounting {

  /** How many of the first `k` queues are mapped to vector `v`. */
  ghost function UsersOf(vec: seq<nat>, k: nat, v: nat): (n: nat)
    requires k <= |vec|
    ensures n <= k
  {
    if k == 0 then 0 else UsersOf(vec, k - 1, v) + if vec[k - 1] == v then 1 else 0
  }

  /** How many queues in all are mapped to vector `v`. */
  ghost function Mapped(vec: seq<nat>, v: nat): nat { UsersOf(vec, |vec|, v) }

  lemma {:induction false} UsersOfPositive(vec: seq<nat>, k: nat, v: nat)
    requires k <= |vec|
    ensures UsersOf(vec, k, v) > 0 <==> exists q :: 0 <= q < k && vec[q] == v
  {
    if k > 0 {
      UsersOfPositive(vec, k - 1, v);
      if vec[k - 1] == v {
        assert 0 <= k - 1 < k && vec[k - 1] == v;
      }
    }
  }

  /** Remapping one queue moves exactly one unit from its old vector to its new one. */
  lemma {:induction false} UsersOfUpdate(vec: seq<nat>, k: nat, q: nat, w: nat, v: nat)
    requires k <= |vec| && q < |vec|
    ensures UsersOf(vec[q := w], k, v)
         == UsersOf(vec, k, v) + (if q < k && w == v then 1 else 0) - (if q < k && vec[q] == v then 1 else 0)
  {
    if k > 0 {
      UsersOfUpdate(vec, k - 1, q, w, v);
    }
  }

  /** Two maps that agree on the first `k` queues count alike. */
  lemma {:induction false} UsersOfAgree(vec: seq<nat>, vec': seq<nat>, k: nat, v: nat)
    requires k <= |vec| && k <= |vec'|
    requires forall q :: 0 <= q < k ==> vec[q] == vec'[q]
    ensures UsersOf(vec, k, v) == UsersOf(vec', k, v)
  {
    if k > 0 {
      UsersOfAgree(vec, vec', k - 1, v);
    }
  }

  /** Counting more queues never lowers a count. */
  lemma {:induction false} UsersOfMonotone(vec: seq<nat>, j: nat, k: nat, v: nat)
    requires j <= k <= |vec|
    ensures UsersOf(vec, j, v) <= UsersOf(vec, k, v)
  {
    if j < k {
      UsersOfMonotone(vec, j, k - 1, v);
    }
  }

  /** A vector that no queue beyond `j` uses is counted in full by the first `j` queues. */
  lemma {:induction false} UsersOfTail(vec: seq<nat>, j: nat, k: nat, v: nat)
    requires j <= k <= |vec|
    ensures UsersOf(vec, k, v) == UsersOf(vec, j, v) <==> forall q :: j <= q < k ==> vec[q] != v
  {
    if j < k {
      UsersOfTail(vec, j, k - 1, v);
      UsersOfMonotone(vec, j, k - 1, v);
    }
  }
}

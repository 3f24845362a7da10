/** What the guest-notifier, irqfd and KVM-route bookkeeping of the virtio-pci
    transport must look like, as predicates on values. The class `VirtIOPCIProxy`
    is proved against these. */
module NotifierSpec {
  import opened Options
  import opened VectorCounting

  const VIRTIO_PCI_QUEUE_MAX: nat := 64
  const UINT32_RANGE: nat := 0x1_0000_0000

  /** One entry of `vector_irqfd`. `users` is an unsigned 32-bit counter. */
  datatype VirtIOIRQFD = VirtIOIRQFD(virq: int, users: nat)

  /** The number of MSI-X vectors, whether the device class has a `guest_notifier_mask`
      hook, whether KVM can inject MSIs through irqfds, the queue sizes; and what is live in
      KVM beside the present table: the routes of other devices and those left behind
      earlier, and the irqfds left behind earlier. */
  datatype Geometry = Geometry(nr: nat, hasMask: bool, viaIrqfd: bool, num: seq<nat>, others: set<int>, left: map<nat, int>)

  /** The notifier state of one proxy. `guest[q]` is the number of times queue q's
      guest notifier was initialised minus the times it was cleaned up. */
  datatype Notifiers = Notifiers(
    table: Option<seq<VirtIOIRQFD>>, nvqs: nat, guest: seq<int>, guestHandler: seq<bool>,
    routes: set<int>, irqfds: map<nat, int>, callbacks: bool, msixEnabled: bool, masked: seq<bool>)

  /** What the notifier loops work on: the irqfd table, the KVM routes, the irqfds, the
      last argument given to guest_notifier_mask per queue, and whether an assertion has
      failed or a user count has wrapped. */
  datatype Live = Live(t: seq<VirtIOIRQFD>, r: set<int>, i: map<nat, int>, h: seq<bool>, f: bool)

  function Min(a: nat, b: nat): nat { if a <= b then a else b }

  /** Unsigned 32-bit increment and decrement. */
  function Inc(u: nat): nat { (u + 1) % UINT32_RANGE }
  function Dec(u: nat): nat { if u == 0 then UINT32_RANGE - 1 else u - 1 }

  /** The number of queues a loop over the first `n` visits when it stops at the
      first queue of size zero. */
  function Stop(num: seq<nat>, n: nat): (k: nat)
    requires n <= |num|
    ensures k <= n
    ensures forall q :: 0 <= q < k ==> num[q] != 0
    ensures k < n ==> num[k] == 0
  {
    if n == 0 then 0
    else
      var k := Stop(num, n - 1);
      if k < n - 1 || num[n - 1] == 0 then k else n
  }

  ghost predicate WellShaped(g: Geometry, vec: seq<nat>, n: Notifiers) {
    && |g.num| == |vec| == |n.guest| == |n.guestHandler| == VIRTIO_PCI_QUEUE_MAX
    && n.nvqs <= VIRTIO_PCI_QUEUE_MAX
    && |n.masked| == g.nr
    && (n.table.Some? ==> |n.table.value| == g.nr)
    && (!n.msixEnabled ==> forall v :: 0 <= v < g.nr ==> n.masked[v])
  }

  // ----- KVM routes -----

  /** The routes held through an irqfd table: one per vector in use. */
  ghost function Own(table: seq<VirtIOIRQFD>): set<int> {
    set v | 0 <= v < |table| && table[v].users > 0 :: table[v].virq
  }

  /** The live routes are the other devices' routes and, apart from those, exactly one
      route per vector in use. */
  ghost predicate RoutesMatch(table: seq<VirtIOIRQFD>, routes: set<int>, others: set<int>) {
    && (forall v, w :: 0 <= v < w < |table| && table[v].users > 0 && table[w].users > 0 ==> table[v].virq != table[w].virq)
    && Own(table) !! others
    && routes == others + Own(table)
  }

  /** `table` counts, on top of `base`, one user per queue among the first `k` of its
      vector, and keeps the routes that were already in use. */
  ghost predicate UsersGrown(base: seq<VirtIOIRQFD>, table: seq<VirtIOIRQFD>, vec: seq<nat>, k: nat)
    requires k <= |vec|
  {
    && |table| == |base|
    && (forall v :: 0 <= v < |table| ==> table[v].users == base[v].users + UsersOf(vec, k, v))
    && (forall v :: 0 <= v < |table| && base[v].users > 0 ==> table[v].virq == base[v].virq)
  }

  lemma OwnAgree(base: seq<VirtIOIRQFD>, table: seq<VirtIOIRQFD>, vec: seq<nat>)
    requires UsersGrown(base, table, vec, 0)
    ensures Own(table) == Own(base)
  {
    forall r | r in Own(base) ensures r in Own(table) {
      var v :| 0 <= v < |base| && base[v].users > 0 && base[v].virq == r;
      assert table[v].users > 0 && table[v].virq == r;
    }
  }

  /** One more user of vector `v`: the first user takes a fresh route. */
  ghost predicate UseEffect(s: Live, s': Live, v: nat)
    requires v < |s.t|
  {
    if s.t[v].users > 0 then
      s' == s.(t := s.t[v := s.t[v].(users := Inc(s.t[v].users))])
    else
      && |s'.t| == |s.t| && s'.t[v].users == 1 && s'.t[v].virq >= 0 && s'.t[v].virq !in s.r
      && s' == s.(t := s.t[v := s'.t[v]], r := s.r + {s'.t[v].virq})
  }

  /** One user of vector `v` less: the last user gives the route up. Without a user the
      count wraps. */
  ghost predicate ReleaseEffect(s: Live, s': Live, v: nat)
    requires v < |s.t|
  {
    s' == s.(t := s.t[v := s.t[v].(users := Dec(s.t[v].users))],
             r := if s.t[v].users == 1 then s.r - {s.t[v].virq} else s.r,
             f := s.f || s.t[v].users == 0)
  }

  lemma UseKeepsMatch(s: Live, s': Live, v: nat, others: set<int>)
    requires v < |s.t| && s.t[v].users + 1 < UINT32_RANGE
    requires RoutesMatch(s.t, s.r, others) && UseEffect(s, s', v)
    ensures RoutesMatch(s'.t, s'.r, others)
  {
    var t, t' := s.t, s'.t;
    var extra := if t[v].users > 0 then {} else {t'[v].virq};
    assert Own(t') == Own(t) + extra by {
      forall x | x in Own(t) ensures x in Own(t') {
        var w :| 0 <= w < |t| && t[w].users > 0 && t[w].virq == x;
        assert t'[w].users > 0 && t'[w].virq == x;
      }
      assert t'[v].virq in Own(t');
      forall x | x in Own(t') ensures x in Own(t) + extra {
        var w :| 0 <= w < |t'| && t'[w].users > 0 && t'[w].virq == x;
        assert w != v ==> t[w] == t'[w];
      }
    }
  }

  lemma ReleaseKeepsMatch(s: Live, s': Live, v: nat, others: set<int>)
    requires v < |s.t| && s.t[v].users > 0
    requires RoutesMatch(s.t, s.r, others) && ReleaseEffect(s, s', v)
    ensures RoutesMatch(s'.t, s'.r, others)
  {
    var t, t' := s.t, s'.t;
    var gone := if t[v].users == 1 then {t[v].virq} else {};
    assert Own(t') == Own(t) - gone by {
      forall x | x in Own(t) && x !in gone ensures x in Own(t') {
        var w :| 0 <= w < |t| && t[w].users > 0 && t[w].virq == x;
        assert t'[w].users > 0 && t'[w].virq == x;
      }
      forall x | x in Own(t') ensures x in Own(t) && x !in gone {
        var w :| 0 <= w < |t'| && t'[w].users > 0 && t'[w].virq == x;
        assert t[w].users > 0 && t[w].virq == x;
        assert t[v].users == 1 ==> v < w || w < v;
      }
    }
  }

  // ----- irqfds -----

  /** Queues among the first `k` bound to a valid vector that `hot` selects. */
  ghost function Hot(vec: seq<nat>, k: nat, hot: seq<bool>): set<nat>
    requires k <= |vec|
  {
    set q: nat | q < k && vec[q] < |hot| && hot[vec[q]]
  }

  /** Queues among the first `k` bound to a valid vector. */
  ghost function BoundQueues(vec: seq<nat>, k: nat, nr: nat): set<nat>
    requires k <= |vec|
  {
    set q: nat | q < k && vec[q] < nr
  }

  /** Queues among the first `k` mapped to vector `v`. */
  ghost function OnVector(vec: seq<nat>, k: nat, v: nat): set<nat>
    requires k <= |vec|
  {
    set q: nat | q < k && vec[q] == v
  }

  /** Relative to `base`, exactly the queues `Q` have an irqfd too, each on the route of its vector. */
  ghost predicate Attached(irqfds: map<nat, int>, base: map<nat, int>, table: seq<VirtIOIRQFD>, vec: seq<nat>, Q: set<nat>) {
    && irqfds.Keys == base.Keys + Q
    && (forall q :: q in Q ==> q !in base && q < |vec| && vec[q] < |table| && irqfds[q] == table[vec[q]].virq)
    && (forall q :: q in base ==> irqfds[q] == base[q])
  }

  /** The counts, routes and irqfds held on top of those of `s0` once the first `k` queues
      are bound. Irqfds are bound with the vectors only when the device class masks its
      own notifiers. */
  ghost predicate Holding(g: Geometry, vec: seq<nat>, s0: Live, s: Live, k: nat)
    requires k <= |vec|
  {
    && |s.t| == g.nr && s.h == s0.h && s.f == s0.f
    && UsersGrown(s0.t, s.t, vec, k)
    && RoutesMatch(s.t, s.r, g.others)
    && Attached(s.i, s0.i, s.t, vec, if g.hasMask then BoundQueues(vec, k, g.nr) else {})
  }

  /** Holding nothing more than at the start means every route and irqfd is as at the start. */
  lemma HoldingNothing(g: Geometry, vec: seq<nat>, s0: Live, s: Live)
    requires Holding(g, vec, s0, s, 0)
    ensures s.r == g.others + Own(s0.t) && s.i == s0.i
  {
    OwnAgree(s0.t, s.t, vec);
  }

  lemma HoldingSkip(g: Geometry, vec: seq<nat>, s0: Live, s: Live, k: nat)
    requires k < |vec| && vec[k] >= g.nr
    ensures Holding(g, vec, s0, s, k) <==> Holding(g, vec, s0, s, k + 1)
  {
    assert BoundQueues(vec, k + 1, g.nr) == BoundQueues(vec, k, g.nr);
  }

  lemma HoldingRoom(g: Geometry, vec: seq<nat>, s0: Live, s: Live, k: nat, v: nat, nvqs: nat)
    requires k <= |vec| && Holding(g, vec, s0, s, k) && |s0.t| == g.nr && v < g.nr && k < nvqs
    requires s0.t[v].users + nvqs < UINT32_RANGE
    ensures s.t[v].users + 1 < UINT32_RANGE
  {
  }

  lemma GrownMore(vec: seq<nat>, t0: seq<VirtIOIRQFD>, s: Live, k: nat, s': Live)
    requires k < |vec| && vec[k] < |s.t|
    requires UsersGrown(t0, s.t, vec, k)
    requires s.t[vec[k]].users + 1 < UINT32_RANGE
    requires UseEffect(s, s', vec[k])
    ensures UsersGrown(t0, s'.t, vec, k + 1)
    ensures forall q :: 0 <= q < k && vec[q] < |s.t| ==> s'.t[vec[q]].virq == s.t[vec[q]].virq
  {
    forall q | 0 <= q < k && vec[q] < |s.t| ensures s'.t[vec[q]].virq == s.t[vec[q]].virq {
      UsersOfPositive(vec, k, vec[q]);
    }
  }

  lemma AttachedMore(i: map<nat, int>, base: map<nat, int>, t: seq<VirtIOIRQFD>, vec: seq<nat>, Q: set<nat>, k: nat,
                     t': seq<VirtIOIRQFD>)
    requires Attached(i, base, t, vec, Q) && k !in i
    requires k < |vec| && vec[k] < |t| == |t'|
    requires forall q :: q in Q ==> t'[vec[q]].virq == t[vec[q]].virq
    ensures Attached(i[k := t'[vec[k]].virq], base, t', vec, Q + {k})
  {
  }

  /** Queue `k` takes its vector (`s1`) and, if irqfds go with vectors, its irqfd (`s'`). */
  lemma HoldingMore(g: Geometry, vec: seq<nat>, s0: Live, s: Live, k: nat, s1: Live, s': Live)
    requires k < |vec| && vec[k] < g.nr
    requires Holding(g, vec, s0, s, k)
    requires s.t[vec[k]].users + 1 < UINT32_RANGE
    requires UseEffect(s, s1, vec[k])
    requires if g.hasMask then k !in s.i && s' == s1.(i := s.i[k := s1.t[vec[k]].virq]) else s' == s1
    ensures Holding(g, vec, s0, s', k + 1)
  {
    UseKeepsMatch(s, s1, vec[k], g.others);
    GrownMore(vec, s0.t, s, k, s1);
    if g.hasMask {
      assert BoundQueues(vec, k + 1, g.nr) == BoundQueues(vec, k, g.nr) + {k};
      AttachedMore(s.i, s0.i, s.t, vec, BoundQueues(vec, k, g.nr), k, s1.t);
    } else {
      assert s'.i == s0.i;
    }
  }

  /** Queue `q` gives back its irqfd, if irqfds go with vectors, and its user of `v`. */
  ghost predicate QueueReleased(g: Geometry, s: Live, s': Live, q: nat, v: nat)
    requires v < |s.t|
  {
    var there := q in s.i && s.i[q] == s.t[v].virq;
    ReleaseEffect(s.(i := if g.hasMask && there then s.i - {q} else s.i, f := s.f || (g.hasMask && !there)), s', v)
  }

  /** Undoing queue `k`: its irqfd is there to be removed and its user there to be released. */
  lemma HoldingLess(g: Geometry, vec: seq<nat>, s0: Live, s: Live, k: nat, s': Live)
    requires k < |vec| && vec[k] < g.nr
    requires Holding(g, vec, s0, s, k + 1)
    requires QueueReleased(g, s, s', k, vec[k])
    ensures s.t[vec[k]].users > 0
    ensures Holding(g, vec, s0, s', k)
  {
    assert BoundQueues(vec, k + 1, g.nr) == BoundQueues(vec, k, g.nr) + {k};
    assert k !in BoundQueues(vec, k, g.nr);
    ReleaseKeepsMatch(s.(i := s'.i), s', vec[k], g.others);
  }

  /** A vector acquired and given straight back: every count and every route in use is as
      before, although a first use may leave a new number behind in an unused entry. */
  lemma UseReleaseTable(s: Live, v: nat, others: set<int>, s1: Live, s2: Live)
    requires v < |s.t| && s.t[v].users + 1 < UINT32_RANGE && RoutesMatch(s.t, s.r, others)
    requires UseEffect(s, s1, v) && ReleaseEffect(s1, s2, v)
    ensures RoutesMatch(s2.t, s2.r, others) && s2 == s.(t := s2.t, r := s2.r) && |s2.t| == |s.t|
    ensures forall w :: 0 <= w < |s.t| ==> s2.t[w].users == s.t[w].users && (s.t[w].users > 0 ==> s2.t[w] == s.t[w])
  {
    UseKeepsMatch(s, s1, v, others);
    ReleaseKeepsMatch(s1, s2, v, others);
  }

  /** ... so what is held stays held. */
  lemma UseThenRelease(g: Geometry, vec: seq<nat>, s0: Live, s: Live, k: nat, v: nat, s1: Live, s2: Live)
    requires k <= |vec| && v < |s.t| && s.t[v].users + 1 < UINT32_RANGE
    requires Holding(g, vec, s0, s, k)
    requires UseEffect(s, s1, v) && ReleaseEffect(s1, s2, v)
    ensures Holding(g, vec, s0, s2, k)
  {
    UseReleaseTable(s, v, g.others, s1, s2);
    forall q | q in BoundQueues(vec, k, g.nr) ensures s2.t[vec[q]] == s.t[vec[q]] {
      UsersOfPositive(vec, k, vec[q]);
    }
  }

  /** What is left of `s0` once the first `q` queues have been released. */
  ghost predicate Released(g: Geometry, vec: seq<nat>, s0: Live, s: Live, q: nat)
    requires q <= |vec|
  {
    && |s.t| == |s0.t| == g.nr && s.h == s0.h && s.f == s0.f
    && (forall v :: 0 <= v < g.nr ==> s.t[v].users + UsersOf(vec, q, v) == s0.t[v].users && s.t[v].virq == s0.t[v].virq)
    && RoutesMatch(s.t, s.r, g.others)
    && s.i == s0.i - if g.hasMask then BoundQueues(vec, q, g.nr) else {}
  }

  /** Enough users, and the irqfds that go with them, to release the first `k` queues. */
  ghost predicate Releasable(g: Geometry, vec: seq<nat>, s: Live, k: nat)
    requires k <= |vec|
  {
    && |s.t| == g.nr && RoutesMatch(s.t, s.r, g.others)
    && (forall v :: 0 <= v < g.nr ==> UsersOf(vec, k, v) <= s.t[v].users)
    && (g.hasMask ==> forall q :: q in BoundQueues(vec, k, g.nr) ==> q in s.i && s.i[q] == s.t[vec[q]].virq)
  }

  /** Queue `q`, with its user and its irqfd there, is released next. */
  lemma ReleasedNext(g: Geometry, vec: seq<nat>, s0: Live, s: Live, q: nat, s': Live)
    requires q < |vec| && vec[q] < g.nr
    requires Released(g, vec, s0, s, q) && QueueReleased(g, s, s', q, vec[q])
    requires s.t[vec[q]].users > 0 && (g.hasMask ==> q in s.i && s.i[q] == s.t[vec[q]].virq)
    ensures Released(g, vec, s0, s', q + 1)
  {
    ReleaseKeepsMatch(s.(i := s'.i), s', vec[q], g.others);
    assert BoundQueues(vec, q + 1, g.nr) == BoundQueues(vec, q, g.nr) + {q};
  }

  lemma ReleasedMore(g: Geometry, vec: seq<nat>, s0: Live, k: nat, s: Live, q: nat, s': Live)
    requires q < k <= |vec| && vec[q] < g.nr
    requires Releasable(g, vec, s0, k)
    requires Released(g, vec, s0, s, q) && QueueReleased(g, s, s', q, vec[q])
    ensures Released(g, vec, s0, s', q + 1)
  {
    UsersOfMonotone(vec, q + 1, k, vec[q]);
    assert q in BoundQueues(vec, k, g.nr);
    ReleasedNext(g, vec, s0, s, q, s');
  }

  /** Use followed by release of the same queues restores the user counts, the live
      routes and the irqfds, however the queues share vectors. */
  lemma UseReleaseRoundTrip(g: Geometry, vec: seq<nat>, s0: Live, k: nat, s: Live, s': Live)
    requires k <= |vec|
    requires Holding(g, vec, s0, s, k)
    requires Released(g, vec, s, s', k)
    ensures Releasable(g, vec, s, k)
    ensures forall v :: 0 <= v < g.nr ==> s'.t[v].users == s0.t[v].users
    ensures s'.r == g.others + Own(s0.t) && s'.i == s0.i
  {
    assert UsersGrown(s0.t, s'.t, vec, 0);
    OwnAgree(s0.t, s'.t, vec);
  }

  // ----- releasing what was never taken -----

  /** A table without users. */
  ghost predicate Unused(s: Live) { forall v :: 0 <= v < |s.t| ==> s.t[v].users == 0 }

  /** The counts of an unused table after `q` queues were released from it: they have
      wrapped around below zero. */
  ghost predicate Wrapped(t: seq<VirtIOIRQFD>, vec: seq<nat>, q: nat)
    requires q <= |vec|
  {
    forall v :: 0 <= v < |t| ==> t[v].users == if UsersOf(vec, q, v) == 0 then 0 else UINT32_RANGE - UsersOf(vec, q, v)
  }

  lemma BoundQueuesMore(vec: seq<nat>, k: nat, nr: nat)
    requires k < |vec|
    ensures BoundQueues(vec, k + 1, nr) == BoundQueues(vec, k, nr) + if vec[k] < nr then {k} else {}
  {
  }

  /** Releasing one more queue from an unused table: the first release of a vector
      wraps its count, and no later one brings it back to zero. */
  lemma WrappedMore(t: seq<VirtIOIRQFD>, vec: seq<nat>, q: nat, t': seq<VirtIOIRQFD>)
    requires q < |vec| <= VIRTIO_PCI_QUEUE_MAX && vec[q] < |t|
    requires Wrapped(t, vec, q)
    requires t' == t[vec[q] := t[vec[q]].(users := Dec(t[vec[q]].users))]
    ensures Wrapped(t', vec, q + 1)
    ensures t[vec[q]].users != 1
    ensures t[vec[q]].users != 0 ==> BoundQueues(vec, q, |t|) != {}
    ensures q in BoundQueues(vec, q + 1, |t|)
  {
    UsersOfPositive(vec, q, vec[q]);
    if p: nat :| p < q && vec[p] == vec[q] {
      assert p in BoundQueues(vec, q, |t|);
    }
  }

  // ----- releasing after vectors have moved -----

  /** Where a class masks its own notifiers, irqfds are left behind on routes left behind. */
  ghost predicate LeftStranded(g: Geometry) { g.hasMask ==> forall q :: q in g.left ==> g.left[q] in g.others }

  /** The first `k` queues hold exactly the vectors `b`, each with its irqfd. */
  ghost predicate BoundBy(g: Geometry, b: seq<nat>, s: Live, k: nat)
    requires k <= |b|
  {
    && g.hasMask && LeftStranded(g) && |s.t| == g.nr && RoutesMatch(s.t, s.r, g.others)
    && (forall v :: 0 <= v < g.nr ==> s.t[v].users == UsersOf(b, k, v))
    && Attached(s.i, g.left, s.t, b, BoundQueues(b, k, g.nr))
  }

  /** Queues among the first `k` that are mapped to a valid vector other than the one
      they were bound with. */
  ghost function Strayed(b: seq<nat>, vec: seq<nat>, k: nat, nr: nat): set<nat>
    requires k <= |vec| == |b|
  {
    set q: nat | q < k && vec[q] < nr && vec[q] != b[q]
  }

  /** Bound queues among the first `k` that no longer have a valid vector. */
  ghost function Dropped(b: seq<nat>, vec: seq<nat>, k: nat, nr: nat): set<nat>
    requires k <= |vec| == |b|
  {
    set q: nat | q < k && b[q] < nr <= vec[q]
  }

  lemma {:induction false} UnstrayedFewer(b: seq<nat>, vec: seq<nat>, k: nat, nr: nat, v: nat)
    requires k <= |vec| == |b| && v < nr && Strayed(b, vec, k, nr) == {}
    ensures UsersOf(vec, k, v) <= UsersOf(b, k, v)
  {
    if k > 0 {
      assert Strayed(b, vec, k - 1, nr) <= Strayed(b, vec, k, nr);
      assert k - 1 !in Strayed(b, vec, k, nr);
      UnstrayedFewer(b, vec, k - 1, nr, v);
    }
  }

  lemma StrayedMore(b: seq<nat>, vec: seq<nat>, k: nat, nr: nat)
    requires k < |vec| == |b|
    ensures Strayed(b, vec, k + 1, nr) == Strayed(b, vec, k, nr) + if vec[k] < nr && vec[k] != b[k] then {k} else {}
  {
  }

  /** A queue that kept its vector finds its user and its irqfd. */
  lemma UnstrayedThere(g: Geometry, b: seq<nat>, vec: seq<nat>, s0: Live, k: nat, s: Live, q: nat)
    requires q < k <= |vec| == |b| && b[q] == vec[q] < g.nr && BoundBy(g, b, s0, k)
    requires Strayed(b, vec, q, g.nr) == {} && Released(g, vec, s0, s, q)
    ensures s.t[vec[q]].users > 0 && q in s.i && s.i[q] == s.t[vec[q]].virq
  {
    UnstrayedFewer(b, vec, q, g.nr, vec[q]);
    UsersOfMonotone(b, q + 1, k, vec[q]);
    assert q in BoundQueues(b, k, g.nr) && q !in BoundQueues(vec, q, g.nr);
  }

  /** A queue that strayed finds no irqfd on the route of its new vector, or no user there. */
  lemma StrayedFaults(g: Geometry, b: seq<nat>, vec: seq<nat>, s0: Live, k: nat, s: Live, q: nat)
    requires q < k <= |vec| == |b| && b[q] != vec[q] < g.nr && BoundBy(g, b, s0, k)
    requires Released(g, vec, s0, s, q)
    ensures s.t[vec[q]].users == 0 || !(q in s.i && s.i[q] == s.t[vec[q]].virq)
  {
    if q in g.left {
      assert s.t[vec[q]].users > 0 ==> s.t[vec[q]].virq in Own(s.t);
    } else if q in s.i {
      assert q in BoundQueues(b, k, g.nr);
      UsersOfPositive(b, k, b[q]);
      if s.t[vec[q]].users > 0 {
        assert s0.t[vec[q]].users > 0 && s0.t[b[q]].users > 0;
        assert b[q] < vec[q] || vec[q] < b[q];
      }
    }
  }

  /** The routes of bound queues that no longer have a valid vector. */
  ghost function StrandedRoutes(b: seq<nat>, vec: seq<nat>, t: seq<VirtIOIRQFD>, k: nat): set<int>
    requires k <= |vec| == |b|
  {
    set q | q in Dropped(b, vec, k, |t|) :: t[b[q]].virq
  }

  lemma {:induction false} DroppedCounted(b: seq<nat>, vec: seq<nat>, k: nat, nr: nat, v: nat)
    requires k <= |vec| == |b| && v < nr && Strayed(b, vec, k, nr) == {}
    ensures UsersOf(vec, k, v) < UsersOf(b, k, v) <==> exists q :: q in Dropped(b, vec, k, nr) && b[q] == v
  {
    if k > 0 {
      assert Strayed(b, vec, k - 1, nr) <= Strayed(b, vec, k, nr);
      assert k - 1 !in Strayed(b, vec, k, nr);
      DroppedCounted(b, vec, k - 1, nr, v);
      UnstrayedFewer(b, vec, k - 1, nr, v);
      assert Dropped(b, vec, k, nr) == Dropped(b, vec, k - 1, nr) + if b[k - 1] < nr <= vec[k - 1] then {k - 1} else {};
    }
  }

  /** Releasing by the present vectors, none of which strayed, strands exactly the irqfds
      and the routes of the queues that lost theirs. */
  lemma DroppedStay(g: Geometry, b: seq<nat>, vec: seq<nat>, s0: Live, k: nat, s: Live)
    requires k <= |vec| == |b| && BoundBy(g, b, s0, k)
    requires Strayed(b, vec, k, g.nr) == {} && Released(g, vec, s0, s, k)
    ensures s.i.Keys == g.left.Keys + Dropped(b, vec, k, g.nr) && s.r == g.others + StrandedRoutes(b, vec, s0.t, k)
    ensures forall q :: q in s.i ==> s.i[q] == s0.i[q] && s.i[q] in s.r
  {
    DroppedIrqfds(b, vec, k, g.nr);
    DroppedRoutes(g, b, vec, s0, k, s);
  }

  lemma DroppedIrqfds(b: seq<nat>, vec: seq<nat>, k: nat, nr: nat)
    requires k <= |vec| == |b| && Strayed(b, vec, k, nr) == {}
    ensures BoundQueues(b, k, nr) == BoundQueues(vec, k, nr) + Dropped(b, vec, k, nr)
    ensures BoundQueues(vec, k, nr) !! Dropped(b, vec, k, nr)
  {
    forall q | q in BoundQueues(vec, k, nr) ensures q in BoundQueues(b, k, nr) {
      assert q !in Strayed(b, vec, k, nr);
    }
    forall q | q in BoundQueues(b, k, nr) ensures q in BoundQueues(vec, k, nr) || q in Dropped(b, vec, k, nr) {}
  }

  lemma DroppedRoutes(g: Geometry, b: seq<nat>, vec: seq<nat>, s0: Live, k: nat, s: Live)
    requires k <= |vec| == |b| && BoundBy(g, b, s0, k)
    requires Strayed(b, vec, k, g.nr) == {} && Released(g, vec, s0, s, k)
    ensures s.r == g.others + StrandedRoutes(b, vec, s0.t, k)
  {
    forall v | 0 <= v < g.nr ensures s.t[v].users > 0 <==> exists q :: q in Dropped(b, vec, k, g.nr) && b[q] == v {
      DroppedCounted(b, vec, k, g.nr, v);
    }
    assert Own(s.t) == StrandedRoutes(b, vec, s0.t, k) by {
      forall x | x in Own(s.t) ensures x in StrandedRoutes(b, vec, s0.t, k) {
        var v :| 0 <= v < |s.t| && s.t[v].users > 0 && s.t[v].virq == x;
        var q :| q in Dropped(b, vec, k, g.nr) && b[q] == v;
        assert s0.t[b[q]].virq == x;
      }
    }
  }

  // ----- the release loop -----

  /** More of the first `k` queues are on some vector than it has users. */
  ghost predicate Oversubscribed(t: seq<VirtIOIRQFD>, vec: seq<nat>, k: nat)
    requires k <= |vec|
  {
    exists v :: 0 <= v < |t| && t[v].users < UsersOf(vec, k, v)
  }

  /** The routes of vectors with more users than queues among the first `k`. */
  ghost function Shed(t: seq<VirtIOIRQFD>, vec: seq<nat>, k: nat): set<int>
    requires k <= |vec|
  {
    set v | 0 <= v < |t| && UsersOf(vec, k, v) < t[v].users :: t[v].virq
  }

  lemma OversubscribedMore(t: seq<VirtIOIRQFD>, vec: seq<nat>, q: nat)
    requires q < |vec|
    ensures Oversubscribed(t, vec, q + 1) <==>
      Oversubscribed(t, vec, q) || (vec[q] < |t| && t[vec[q]].users <= UsersOf(vec, q, vec[q]))
  {
    if v :| 0 <= v < |t| && t[v].users < UsersOf(vec, q + 1, v) {
      assert v != vec[q] ==> t[v].users < UsersOf(vec, q, v);
    }
    if v :| 0 <= v < |t| && t[v].users < UsersOf(vec, q, v) {
      assert t[v].users < UsersOf(vec, q + 1, v);
    }
    if vec[q] < |t| && t[vec[q]].users <= UsersOf(vec, q, vec[q]) {
      assert t[vec[q]].users < UsersOf(vec, q + 1, vec[q]);
    }
  }

  /** Releasing queues leaves exactly the routes of the vectors that still have users. */
  lemma ReleasedSheds(g: Geometry, vec: seq<nat>, s0: Live, s: Live, k: nat)
    requires k <= |vec| && Released(g, vec, s0, s, k)
    ensures s.r == g.others + Shed(s0.t, vec, k)
  {
    assert Own(s.t) == Shed(s0.t, vec, k) by {
      forall x | x in Own(s.t) ensures x in Shed(s0.t, vec, k) {
        var v :| 0 <= v < |s.t| && s.t[v].users > 0 && s.t[v].virq == x;
        assert UsersOf(vec, k, v) < s0.t[v].users && s0.t[v].virq == x;
      }
      forall x | x in Shed(s0.t, vec, k) ensures x in Own(s.t) {
        var v :| 0 <= v < |s0.t| && UsersOf(vec, k, v) < s0.t[v].users && s0.t[v].virq == x;
        assert s.t[v].users > 0 && s.t[v].virq == x;
      }
    }
  }

  /** How far the release loop has come after `q` queues: from a state that holds the
      first `k` queues, from one that holds none, from one that holds them with the
      vectors `b`, and, without a mask hook, from any other. */
  ghost predicate ReleaseProgress(g: Geometry, b: seq<nat>, vec: seq<nat>, s0: Live, k: nat, s: Live, q: nat)
    requires q <= k <= |vec| == |b|
  {
    && |s.t| == |s0.t| == g.nr && s.h == s0.h
    && (Releasable(g, vec, s0, k) ==> Released(g, vec, s0, s, q))
    && (Unused(s0) ==>
          && s.f == (s0.f || BoundQueues(vec, q, g.nr) != {}) && Wrapped(s.t, vec, q)
          && (BoundQueues(vec, q, g.nr) == {} ==> s.r == s0.r && s.i == s0.i))
    && (BoundBy(g, b, s0, k) ==>
          && s.f == (s0.f || Strayed(b, vec, q, g.nr) != {})
          && (Strayed(b, vec, q, g.nr) == {} ==> Released(g, vec, s0, s, q)))
    && (!g.hasMask && RoutesMatch(s0.t, s0.r, g.others) ==>
          && s.f == (s0.f || Oversubscribed(s0.t, vec, q))
          && (!Oversubscribed(s0.t, vec, q) ==> Released(g, vec, s0, s, q)))
  }

  lemma ReleaseStart(g: Geometry, b: seq<nat>, vec: seq<nat>, s: Live, k: nat)
    requires k <= |vec| == |b| && |s.t| == g.nr
    ensures ReleaseProgress(g, b, vec, s, k, s, 0)
  {
  }

  lemma ReleaseSkip(g: Geometry, b: seq<nat>, vec: seq<nat>, s0: Live, k: nat, s: Live, q: nat)
    requires q < k <= |vec| == |b| && vec[q] >= g.nr
    requires ReleaseProgress(g, b, vec, s0, k, s, q)
    ensures ReleaseProgress(g, b, vec, s0, k, s, q + 1)
  {
    BoundQueuesMore(vec, q, g.nr);
    StrayedMore(b, vec, q, g.nr);
    OversubscribedMore(s0.t, vec, q);
  }

  lemma ReleaseTurn(g: Geometry, b: seq<nat>, vec: seq<nat>, s0: Live, k: nat, s: Live, q: nat, s': Live)
    requires q < k <= |vec| == |b| <= VIRTIO_PCI_QUEUE_MAX && vec[q] < g.nr
    requires ReleaseProgress(g, b, vec, s0, k, s, q) && QueueReleased(g, s, s', q, vec[q])
    ensures ReleaseProgress(g, b, vec, s0, k, s', q + 1)
  {
    if Releasable(g, vec, s0, k) {
      ReleasedMore(g, vec, s0, k, s, q, s');
    }
    if Unused(s0) {
      WrappedMore(s.t, vec, q, s'.t);
      BoundQueuesMore(vec, q, g.nr);
    }
    if BoundBy(g, b, s0, k) {
      ReleaseBoundTurn(g, b, vec, s0, k, s, q, s');
    }
    if !g.hasMask && RoutesMatch(s0.t, s0.r, g.others) {
      OversubscribedMore(s0.t, vec, q);
      if !Oversubscribed(s0.t, vec, q) && s.t[vec[q]].users > 0 {
        ReleasedNext(g, vec, s0, s, q, s');
      }
    }
  }

  lemma ReleaseBoundTurn(g: Geometry, b: seq<nat>, vec: seq<nat>, s0: Live, k: nat, s: Live, q: nat, s': Live)
    requires q < k <= |vec| == |b| && vec[q] < g.nr && BoundBy(g, b, s0, k)
    requires s.f == (s0.f || Strayed(b, vec, q, g.nr) != {}) && |s.t| == g.nr
    requires Strayed(b, vec, q, g.nr) == {} ==> Released(g, vec, s0, s, q)
    requires QueueReleased(g, s, s', q, vec[q])
    ensures s'.f == (s0.f || Strayed(b, vec, q + 1, g.nr) != {})
    ensures Strayed(b, vec, q + 1, g.nr) == {} ==> Released(g, vec, s0, s', q + 1)
  {
    StrayedMore(b, vec, q, g.nr);
    if Strayed(b, vec, q, g.nr) == {} {
      if b[q] == vec[q] {
        UnstrayedThere(g, b, vec, s0, k, s, q);
        ReleasedNext(g, vec, s0, s, q, s');
      } else {
        StrayedFaults(g, b, vec, s0, k, s, q);
      }
    }
  }

  // ----- masking and unmasking -----

  ghost function TableOf(o: Option<seq<VirtIOIRQFD>>): seq<VirtIOIRQFD> { if o.Some? then o.value else [] }

  ghost function LiveOf(n: Notifiers, h: seq<bool>, f: bool): Live { Live(TableOf(n.table), n.routes, n.irqfds, h, f) }

  /** `guest_notifier_mask` called with `b` for each queue in `Q`. */
  ghost function SetHook(h: seq<bool>, Q: set<nat>, b: bool): (h': seq<bool>)
    ensures |h'| == |h|
    ensures forall q :: 0 <= q < |h| ==> h'[q] == if q in Q then b else h[q]
  {
    seq(|h|, q requires 0 <= q < |h| => if q in Q then b else h[q])
  }

  /** guest_notifier_mask has been told `b` of those of the first `k` queues that are on an
      unmasked vector or, without MSI-X, of all; nothing by a class without the hook. */
  ghost predicate HooksTold(g: Geometry, vec: seq<nat>, n: Notifiers, h: seq<bool>, h': seq<bool>, k: nat, b: bool)
    requires k <= |vec| == |h| && |n.masked| == g.nr
  {
    && |h'| == |h|
    && forall q :: 0 <= q < |h| ==>
         h'[q] == if g.hasMask && q < k && (!n.msixEnabled || (vec[q] < g.nr && !n.masked[vec[q]])) then b else h[q]
  }

  /** No queue is unmasked that was masked before. */
  ghost predicate HooksKept(h: seq<bool>, h': seq<bool>) { |h'| == |h| && forall q :: 0 <= q < |h| && h[q] ==> h'[q] }

  lemma OnVectorMore(vec: seq<nat>, k: nat, v: nat)
    requires k < |vec|
    ensures OnVector(vec, k + 1, v) == OnVector(vec, k, v) + if vec[k] == v then {k} else {}
  {
  }

  /** The queues of `Q` whose irqfd on the route of vector `v` is in place. */
  ghost function There(s: Live, v: nat, Q: set<nat>): set<nat>
    requires v < |s.t|
  {
    set q | q in Q && q in s.i && s.i[q] == s.t[v].virq
  }

  /** Unmasking vector `v` for the first `q` queues, starting from `s0`. */
  ghost predicate Unmasked(g: Geometry, vec: seq<nat>, s0: Live, s: Live, v: nat, q: nat)
    requires q <= |vec|
  {
    && Attached(s.i, s0.i, s0.t, vec, if g.hasMask then {} else OnVector(vec, q, v))
    && s == s0.(i := s.i, h := if g.hasMask then SetHook(s0.h, OnVector(vec, q, v), false) else s0.h)
  }

  /** Masking vector `v` for the first `q` queues, starting from `s0`. */
  ghost predicate MaskedNow(g: Geometry, vec: seq<nat>, s0: Live, s: Live, v: nat, q: nat)
    requires q <= |vec| && (g.hasMask || v < |s0.t|)
  {
    var Q := OnVector(vec, q, v);
    if g.hasMask then s == s0.(h := SetHook(s0.h, Q, true))
    else s == s0.(i := s0.i - There(s0, v, Q), f := s0.f || There(s0, v, Q) != Q)
  }

  /** One queue is unmasked. */
  ghost predicate QueueUnmasked(g: Geometry, s: Live, s': Live, q: nat, v: nat)
    requires q < |s.h|
  {
    if g.hasMask then s' == s.(h := s.h[q := false])
    else v < |s.t| && q !in s.i && s' == s.(i := s.i[q := s.t[v].virq])
  }

  /** One queue is masked; a missing irqfd is a fault. */
  ghost predicate QueueMasked(g: Geometry, s: Live, s': Live, q: nat, v: nat)
    requires q < |s.h| && (g.hasMask || v < |s.t|)
  {
    if g.hasMask then s' == s.(h := s.h[q := true])
    else
      var there := q in s.i && s.i[q] == s.t[v].virq;
      s' == s.(i := if there then s.i - {q} else s.i, f := s.f || !there)
  }

  lemma UnmaskedMore(g: Geometry, vec: seq<nat>, s0: Live, s: Live, v: nat, q: nat, s': Live)
    requires q < |vec| && q < |s.h| && (g.hasMask || v < |s.t|)
    requires Unmasked(g, vec, s0, s, v, q)
    requires if vec[q] != v then s' == s else QueueUnmasked(g, s, s', q, v)
    ensures Unmasked(g, vec, s0, s', v, q + 1)
  {
    OnVectorMore(vec, q, v);
  }

  lemma MaskedMore(g: Geometry, vec: seq<nat>, s0: Live, s: Live, v: nat, q: nat, s': Live)
    requires q < |vec| && q < |s.h| && (g.hasMask || v < |s0.t|)
    requires MaskedNow(g, vec, s0, s, v, q)
    requires if vec[q] != v then s' == s else QueueMasked(g, s, s', q, v)
    ensures MaskedNow(g, vec, s0, s', v, q + 1)
  {
    OnVectorMore(vec, q, v);
    if !g.hasMask && vec[q] == v {
      var Q := OnVector(vec, q, v);
      assert There(s0, v, Q + {q}) == There(s0, v, Q) + There(s0, v, {q});
      assert q !in Q;
      assert There(s0, v, Q + {q}) == Q + {q} <==> There(s0, v, Q) == Q && q in There(s0, v, {q});
    }
  }

  lemma UnmaskedStart(g: Geometry, vec: seq<nat>, s: Live, v: nat)
    ensures Unmasked(g, vec, s, s, v, 0)
  {
    assert OnVector(vec, 0, v) == {};
  }

  /** Undoing an unmask of the first `n` queues, with queues from `q` on already undone. */
  ghost predicate Unwound(g: Geometry, vec: seq<nat>, s0: Live, s: Live, v: nat, n: nat, q: nat)
    requires q <= n <= |vec|
  {
    var done := OnVector(vec, q, v);
    && Attached(s.i, s0.i, s0.t, vec, if g.hasMask then {} else done)
    && s == s0.(i := s.i,
                h := if g.hasMask then SetHook(SetHook(s0.h, done, false), OnVector(vec, n, v) - done, true) else s0.h)
  }

  lemma UnwoundLess(g: Geometry, vec: seq<nat>, s0: Live, s: Live, v: nat, n: nat, q: nat, s': Live)
    requires q < n <= |vec| && q < |s.h| && (g.hasMask || v < |s.t|)
    requires Unwound(g, vec, s0, s, v, n, q + 1)
    requires if vec[q] != v then s' == s else QueueMasked(g, s, s', q, v)
    ensures Unwound(g, vec, s0, s', v, n, q)
  {
    OnVectorMore(vec, q, v);
    assert vec[q] == v ==> q in OnVector(vec, n, v);
  }

  lemma UnwoundStart(g: Geometry, vec: seq<nat>, s0: Live, s: Live, v: nat, n: nat)
    requires n <= |vec|
    requires Unmasked(g, vec, s0, s, v, n)
    ensures Unwound(g, vec, s0, s, v, n, n)
  {
  }

  lemma UnwoundEnd(g: Geometry, vec: seq<nat>, s0: Live, s: Live, v: nat, n: nat)
    requires n <= |vec|
    requires Unwound(g, vec, s0, s, v, n, 0)
    ensures s == s0.(h := if g.hasMask then SetHook(s0.h, OnVector(vec, n, v), true) else s0.h)
  {
    assert OnVector(vec, 0, v) == {};
  }

  // ----- registering and unregistering the MSI-X vector notifiers -----

  /** Queues among the first `k` bound to an unmasked vector below `v`. */
  ghost function HotBelow(vec: seq<nat>, k: nat, masked: seq<bool>, v: nat): set<nat>
    requires k <= |vec| && v <= |masked|
  {
    set q: nat | q < k && vec[q] < v && !masked[vec[q]]
  }

  lemma HotBelowMore(vec: seq<nat>, k: nat, masked: seq<bool>, v: nat)
    requires k <= |vec| && v < |masked|
    ensures HotBelow(vec, k, masked, v + 1) == HotBelow(vec, k, masked, v) + if masked[v] then {} else OnVector(vec, k, v)
    ensures HotBelow(vec, k, masked, v) !! OnVector(vec, k, v)
  {
  }

  /** Every unmasked vector below `v` has been unmasked for the first `k` queues. */
  ghost predicate Fired(g: Geometry, vec: seq<nat>, k: nat, masked: seq<bool>, s0: Live, s: Live, v: nat)
    requires k <= |vec| && v <= |masked|
  {
    var Q := HotBelow(vec, k, masked, v);
    && Attached(s.i, s0.i, s0.t, vec, if g.hasMask then {} else Q)
    && s == s0.(i := s.i, h := if g.hasMask then SetHook(s0.h, Q, false) else s0.h)
  }

  lemma FiredMore(g: Geometry, vec: seq<nat>, k: nat, masked: seq<bool>, s0: Live, s: Live, v: nat, s': Live)
    requires k <= |vec| && v < |masked|
    requires Fired(g, vec, k, masked, s0, s, v)
    requires if masked[v] then s' == s else Unmasked(g, vec, s, s', v, k)
    ensures Fired(g, vec, k, masked, s0, s', v + 1)
  {
    HotBelowMore(vec, k, masked, v);
  }

  lemma FiredLess(g: Geometry, vec: seq<nat>, k: nat, masked: seq<bool>, i0: map<nat, int>, s: Live, v: nat, s': Live)
    requires k <= |vec| && v < |masked| && (g.hasMask || |s.t| == |masked|)
    requires Attached(s.i, i0, s.t, vec, if g.hasMask then {} else HotBelow(vec, k, masked, v + 1))
    requires if masked[v] then s' == s else MaskedNow(g, vec, s, s', v, k)
    ensures Attached(s'.i, i0, s.t, vec, if g.hasMask then {} else HotBelow(vec, k, masked, v)) && s'.f == s.f
  {
    HotBelowMore(vec, k, masked, v);
    if !g.hasMask && !masked[v] {
      assert There(s, v, OnVector(vec, k, v)) == OnVector(vec, k, v);
    }
  }

  /** The queues of `Q` whose irqfd on the route of their vector is in place. */
  ghost function InPlace(s: Live, vec: seq<nat>, Q: set<nat>): set<nat> {
    set q | q in Q && q < |vec| && vec[q] < |s.t| && q in s.i && s.i[q] == s.t[vec[q]].virq
  }

  /** How far unregistering has come when the vectors below `v` are done: without a mask
      hook every irqfd in place goes, and a missing one is a fault. */
  ghost predicate Unfired(g: Geometry, vec: seq<nat>, k: nat, masked: seq<bool>, s0: Live, s: Live, v: nat)
    requires k <= |vec| && v <= |masked|
  {
    var Q := HotBelow(vec, k, masked, v);
    if g.hasMask then s == s0.(h := SetHook(s0.h, Q, true))
    else s == s0.(i := s0.i - InPlace(s0, vec, Q), f := s0.f || InPlace(s0, vec, Q) != Q)
  }

  lemma UnfiredMore(g: Geometry, vec: seq<nat>, k: nat, masked: seq<bool>, s0: Live, s: Live, v: nat, s': Live)
    requires k <= |vec| && v < |masked| && (g.hasMask || |s.t| == |masked|)
    requires Unfired(g, vec, k, masked, s0, s, v)
    requires if masked[v] then s' == s else MaskedNow(g, vec, s, s', v, k)
    ensures Unfired(g, vec, k, masked, s0, s', v + 1)
  {
    HotBelowMore(vec, k, masked, v);
    if !g.hasMask && !masked[v] {
      var P, Q := HotBelow(vec, k, masked, v), OnVector(vec, k, v);
      assert There(s, v, Q) == There(s0, v, Q) == InPlace(s0, vec, Q);
      assert InPlace(s0, vec, P + Q) == InPlace(s0, vec, P) + InPlace(s0, vec, Q);
      assert InPlace(s0, vec, P + Q) == P + Q <==> InPlace(s0, vec, P) == P && InPlace(s0, vec, Q) == Q by {
        if InPlace(s0, vec, P + Q) == P + Q {
          assert forall q :: q in P ==> q in InPlace(s0, vec, P + Q);
          assert forall q :: q in Q ==> q in InPlace(s0, vec, P + Q);
        }
      }
    }
  }

  /** Which vectors have irqfds on their queues: all when the device class can mask its
      own notifiers, otherwise the unmasked ones. */
  ghost function HotVectors(g: Geometry, masked: seq<bool>): (hot: seq<bool>)
    ensures |hot| == |masked|
    ensures forall v :: 0 <= v < |hot| ==> hot[v] == (g.hasMask || !masked[v])
  {
    seq(|masked|, v requires 0 <= v < |masked| => g.hasMask || !masked[v])
  }

  lemma HotCases(g: Geometry, vec: seq<nat>, k: nat, masked: seq<bool>)
    requires k <= |vec|
    ensures Hot(vec, k, HotVectors(g, masked)) ==
      if g.hasMask then BoundQueues(vec, k, |masked|) else HotBelow(vec, k, masked, |masked|)
    ensures HotBelow(vec, k, masked, |masked|) <= BoundQueues(vec, k, |masked|)
  {
  }

  lemma HoldingReleasable(g: Geometry, vec: seq<nat>, s0: Live, s: Live, k: nat)
    requires k <= |vec|
    requires Holding(g, vec, s0, s, k)
    ensures Releasable(g, vec, s, k)
  {
  }

  // ----- the two quiescent states -----

  /** The irqfds, routes and faults after the vector notifiers are unregistered and the
      vectors released, starting from `s0` with the vectors `b` bound. */
  ghost predicate Unbound(g: Geometry, b: seq<nat>, vec: seq<nat>, k: nat, masked: seq<bool>, s0: Live, s: Live)
    requires k <= |vec| == |b|
  {
    var strayed := Strayed(b, vec, k, g.nr) != {};
    && (BoundBy(g, b, s0, k) ==>
          && s.f == (s0.f || strayed)
          && (!strayed ==>
                && s.i.Keys == g.left.Keys + Dropped(b, vec, k, g.nr) && s.r == g.others + StrandedRoutes(b, vec, s0.t, k)
                && forall q :: q in s.i ==> s.i[q] == s0.i[q] && s.i[q] in s.r))
    && (!g.hasMask ==>
          var Q := HotBelow(vec, k, masked, |masked|);
          var faulty := InPlace(s0, vec, Q) != Q || Oversubscribed(s0.t, vec, k);
          && s.f == (s0.f || faulty)
          && (!faulty ==> s.i == s0.i - Q && s.r == g.others + Shed(s0.t, vec, k)))
  }

  lemma UnbindResult(g: Geometry, b: seq<nat>, vec: seq<nat>, k: nat, masked: seq<bool>, s0: Live, s1: Live, s: Live)
    requires k <= |vec| == |b| && |s0.t| == g.nr == |masked| && RoutesMatch(s0.t, s0.r, g.others)
    requires forall v :: 0 <= v < g.nr ==> s0.t[v].users == UsersOf(b, k, v)
    requires Unfired(g, vec, k, masked, s0, s1, |masked|) && ReleaseProgress(g, b, vec, s1, k, s, k)
    ensures Unbound(g, b, vec, k, masked, s0, s)
  {
    if BoundBy(g, b, s0, k) && Strayed(b, vec, k, g.nr) == {} {
      DroppedStay(g, b, vec, s1, k, s);
    }
    if !g.hasMask && !Oversubscribed(s0.t, vec, k) {
      ReleasedSheds(g, vec, s1, s, k);
    }
  }

  /** The guest notifiers of exactly the first `k` queues are initialised; they are
      polled in userspace unless KVM injects for them. */
  ghost predicate GuestUpTo(n: Notifiers, k: nat, withIrqfd: bool) {
    && (forall q :: 0 <= q < |n.guest| ==> n.guest[q] == if q < k then 1 else 0)
    && (forall q :: 0 <= q < |n.guestHandler| ==> n.guestHandler[q] == (q < k && !withIrqfd))
  }

  /** No route of ours, no irqfd, and no user in the table (a table may be left over). */
  ghost predicate NoVectors(g: Geometry, n: Notifiers) {
    && n.routes == g.others && n.irqfds == g.left
    && forall v :: 0 <= v < |TableOf(n.table)| ==> TableOf(n.table)[v].users == 0
  }

  /** One user per queue of each vector, and one route per vector in use. */
  ghost predicate TableBound(g: Geometry, b: seq<nat>, n: Notifiers, k: nat)
    requires k <= |b|
  {
    && n.table.Some? && |n.table.value| == g.nr
    && (forall v :: 0 <= v < g.nr ==> n.table.value[v].users == UsersOf(b, k, v))
    && RoutesMatch(n.table.value, n.routes, g.others)
  }

  /** ... and an irqfd on exactly the queues that `HotVectors` selects. */
  ghost predicate VectorsBound(g: Geometry, b: seq<nat>, n: Notifiers, k: nat)
    requires k <= |b|
  {
    TableBound(g, b, n, k) && IrqfdsInStep(g, b, n, k)
  }

  /** Beside those left behind, the irqfds are those of the first `k` queues on vectors that
      `HotVectors` selects, each on the route of its vector in `u`. */
  ghost predicate IrqfdsInStep(g: Geometry, u: seq<nat>, n: Notifiers, k: nat)
    requires k <= |u|
  {
    Attached(n.irqfds, g.left, TableOf(n.table), u, Hot(u, k, HotVectors(g, n.masked)))
  }

  /** Holding the first `k` queues on top of what is beside the table, and with the vector
      notifiers registered, everything is bound. */
  lemma FiredIsBound(g: Geometry, vec: seq<nat>, k: nat, s0: Live, s1: Live, n: Notifiers, s: Live)
    requires k <= |vec| && n.table.Some? && |n.table.value| == g.nr == |n.masked|
    requires s0.i == g.left && (forall v :: 0 <= v < |s0.t| ==> s0.t[v].users == 0)
    requires Holding(g, vec, s0, s1, k) && Fired(g, vec, k, n.masked, s1, s, |n.masked|)
    requires s.t == n.table.value && s.r == n.routes && s.i == n.irqfds
    ensures VectorsBound(g, vec, n, k)
  {
    HotCases(g, vec, k, n.masked);
  }

  /** Nothing is assigned. */
  ghost predicate Unassigned(g: Geometry, n: Notifiers) {
    GuestUpTo(n, 0, false) && NoVectors(g, n) && !n.callbacks
  }

  /** The first `nvqs` queues (up to the first of size zero) have their guest notifiers
      and, with irqfds, their vectors `b`. */
  ghost predicate Taken(g: Geometry, b: seq<nat>, n: Notifiers, withIrqfd: bool)
    requires |b| == VIRTIO_PCI_QUEUE_MAX && |g.num| == VIRTIO_PCI_QUEUE_MAX && n.nvqs <= VIRTIO_PCI_QUEUE_MAX
  {
    var k := Stop(g.num, n.nvqs);
    && GuestUpTo(n, k, withIrqfd)
    && n.callbacks == (withIrqfd || g.hasMask)
    && if withIrqfd then TableBound(g, b, n, k) else NoVectors(g, n)
  }

  /** ... and their irqfds. */
  ghost predicate Assigned(g: Geometry, b: seq<nat>, n: Notifiers, withIrqfd: bool)
    requires |b| == VIRTIO_PCI_QUEUE_MAX && |g.num| == VIRTIO_PCI_QUEUE_MAX && n.nvqs <= VIRTIO_PCI_QUEUE_MAX
  {
    Taken(g, b, n, withIrqfd) && (withIrqfd ==> VectorsBound(g, b, n, Stop(g.num, n.nvqs)))
  }

  /** Whether guest notifiers are in use and, if so, whether KVM injects for them, which
      vectors the queues were bound with, and whether a class without mask hook has since
      moved one of them from or to an unmasked vector; `Broken` once an assertion has failed
      or a user count has wrapped. */
  datatype Mode = Free | InUse(withIrqfd: bool, bound: seq<nat>, adrift: bool) | Broken

  /** A device class that masks its own notifiers binds irqfds once, at assignment; otherwise
      they come and go with the vectors that the queues have at the time. */
  ghost function Ruling(g: Geometry, b: seq<nat>, vec: seq<nat>): seq<nat> { if g.hasMask then b else vec }

  ghost predicate Consistent(g: Geometry, vec: seq<nat>, n: Notifiers, m: Mode) {
    && WellShaped(g, vec, n) && LeftStranded(g) && (n.callbacks ==> g.hasMask || n.table.Some?)
    && match m
       case Free => Unassigned(g, n)
       case InUse(w, b, adrift) =>
         && |b| == VIRTIO_PCI_QUEUE_MAX && Taken(g, b, n, w) && (adrift ==> w && !g.hasMask)
         && (w && !adrift ==> IrqfdsInStep(g, Ruling(g, b, vec), n, Stop(g.num, n.nvqs)))
       case Broken => true
  }

  /** Some bound queue moves from or to an unmasked vector. */
  ghost predicate MovesUnmasked(g: Geometry, n: Notifiers, vec: seq<nat>, vec': seq<nat>)
    requires |vec| == |vec'| == VIRTIO_PCI_QUEUE_MAX == |g.num| && n.nvqs <= VIRTIO_PCI_QUEUE_MAX && |n.masked| == g.nr
  {
    exists q :: 0 <= q < Stop(g.num, n.nvqs) && vec[q] != vec'[q]
      && ((vec[q] < g.nr && !n.masked[vec[q]]) || (vec'[q] < g.nr && !n.masked[vec'[q]]))
  }

  /** Where a change of vectors leads. */
  ghost function AfterMove(g: Geometry, n: Notifiers, m: Mode, vec: seq<nat>, vec': seq<nat>): Mode
    requires |vec| == |vec'| == VIRTIO_PCI_QUEUE_MAX == |g.num| && n.nvqs <= VIRTIO_PCI_QUEUE_MAX && |n.masked| == g.nr
  {
    if m.InUse? && m.withIrqfd && !g.hasMask && MovesUnmasked(g, n, vec, vec') then m.(adrift := true) else m
  }

  /** Queues may change their vectors at any time. Without a mask hook, irqfds stay in step
      as long as these are masked. */
  lemma MoveKeepsConsistent(g: Geometry, n: Notifiers, m: Mode, vec: seq<nat>, vec': seq<nat>)
    requires Consistent(g, vec, n, m) && |vec'| == VIRTIO_PCI_QUEUE_MAX
    ensures Consistent(g, vec', n, AfterMove(g, n, m, vec, vec'))
  {
    if m.InUse? && m.withIrqfd && !g.hasMask && !MovesUnmasked(g, n, vec, vec') {
      var k, hot := Stop(g.num, n.nvqs), HotVectors(g, n.masked);
      forall q: nat | q < k && (q in Hot(vec, k, hot) || q in Hot(vec', k, hot)) ensures vec[q] == vec'[q] {}
      assert Hot(vec', k, hot) == Hot(vec, k, hot);
    }
  }

  /** Queues on an unmasked vector without an irqfd on its route. */
  ghost function Unheld(g: Geometry, vec: seq<nat>, n: Notifiers): set<nat>
    requires WellShaped(g, vec, n)
  {
    set q: nat | q < Stop(g.num, n.nvqs) && vec[q] < g.nr && !n.masked[vec[q]]
      && !(vec[q] < |TableOf(n.table)| && q in n.irqfds && n.irqfds[q] == TableOf(n.table)[vec[q]].virq)
  }

  /** There is none while irqfds are in step. */
  lemma InStepIsHeld(g: Geometry, vec: seq<nat>, n: Notifiers, b: seq<nat>)
    requires Consistent(g, vec, n, InUse(true, b, false)) && !g.hasMask
    ensures Unheld(g, vec, n) == {}
  {
    var k := Stop(g.num, n.nvqs);
    forall q: nat | q < k && vec[q] < g.nr && !n.masked[vec[q]] ensures q !in Unheld(g, vec, n) {
      assert q in Hot(vec, k, HotVectors(g, n.masked));
    }
  }

  /** More of the first `k` queues are on some vector than were bound with it. */
  ghost predicate Crowded(b: seq<nat>, vec: seq<nat>, k: nat, nr: nat)
    requires k <= |vec| == |b|
  {
    exists v :: 0 <= v < nr && UsersOf(b, k, v) < UsersOf(vec, k, v)
  }

  /** As many of the first `k` queues are on each vector as were bound with it. */
  ghost predicate AsCrowded(b: seq<nat>, vec: seq<nat>, k: nat, nr: nat)
    requires k <= |vec| == |b|
  {
    forall v :: 0 <= v < nr ==> UsersOf(vec, k, v) == UsersOf(b, k, v)
  }

  /** When a deassignment of guest notifiers runs into a missing irqfd or an unused vector:
      at a left-over table with a bound queue; with a mask hook, at a queue whose vector has
      become another valid one since it was bound; without one, at a vector with more queues
      than were bound with it, or at a queue on an unmasked vector without its irqfd. */
  ghost predicate DeassignFaults(g: Geometry, vec: seq<nat>, n: Notifiers, withIrqfd: bool, b: seq<nat>)
    requires WellShaped(g, vec, n) && |b| == VIRTIO_PCI_QUEUE_MAX
  {
    var k := Stop(g.num, n.nvqs);
    if !withIrqfd then n.table.Some? && BoundQueues(vec, k, g.nr) != {}
    else if g.hasMask then Strayed(b, vec, k, g.nr) != {}
    else Crowded(b, vec, k, g.nr) || Unheld(g, vec, n) != {}
  }

  /** Every bound queue still has the vector it was bound with, and no other queue has one;
      without a mask hook, queues may have changed places. */
  ghost predicate VectorsKept(g: Geometry, vec: seq<nat>, n: Notifiers, withIrqfd: bool, b: seq<nat>)
    requires |b| == |vec| == VIRTIO_PCI_QUEUE_MAX == |g.num| && n.nvqs <= VIRTIO_PCI_QUEUE_MAX
  {
    var k := Stop(g.num, n.nvqs);
    withIrqfd ==>
      if g.hasMask then Strayed(b, vec, k, g.nr) == {} && Dropped(b, vec, k, g.nr) == {}
      else AsCrowded(b, vec, k, g.nr)
  }

  /** What a deassignment without a fault leaves behind, beside what was left before: with a
      mask hook the irqfds and routes of the bound queues that have no valid vector any more;
      without one the irqfds of queues on masked vectors, and the routes of vectors with fewer
      queues than were bound with them. */
  ghost predicate DeassignLeaves(g: Geometry, vec: seq<nat>, n: Notifiers, withIrqfd: bool, b: seq<nat>, n': Notifiers)
    requires WellShaped(g, vec, n) && |b| == VIRTIO_PCI_QUEUE_MAX
  {
    var k := Stop(g.num, n.nvqs);
    if !withIrqfd then n'.irqfds == g.left && n'.routes == g.others
    else if g.hasMask then
      && n'.irqfds.Keys == g.left.Keys + Dropped(b, vec, k, g.nr)
      && n'.routes == g.others + StrandedRoutes(b, vec, TableOf(n.table), k)
      && forall q :: q in n'.irqfds ==> q in n.irqfds && n'.irqfds[q] == n.irqfds[q] && n'.irqfds[q] in n'.routes
    else
      && n'.irqfds == n.irqfds - HotBelow(vec, k, n.masked, |n.masked|)
      && n'.routes == g.others + Shed(TableOf(n.table), vec, k)
  }

  /** While irqfds are in step, nothing more is left exactly when every vector still has the
      bound queues it had. */
  lemma NothingLeftExactly(g: Geometry, vec: seq<nat>, n: Notifiers, withIrqfd: bool, b: seq<nat>, n': Notifiers)
    requires Consistent(g, vec, n, InUse(withIrqfd, b, false)) && !DeassignFaults(g, vec, n, withIrqfd, b)
    requires DeassignLeaves(g, vec, n, withIrqfd, b, n') && n'.table == None
    ensures NoVectors(g, n') <==> VectorsKept(g, vec, n, withIrqfd, b)
    ensures withIrqfd && !g.hasMask ==> n'.irqfds == g.left
  {
    var k := Stop(g.num, n.nvqs);
    HotCases(g, Ruling(g, b, vec), k, n.masked);
    if withIrqfd && g.hasMask {
      assert Dropped(b, vec, k, g.nr) <= BoundQueues(b, k, g.nr);
    } else if withIrqfd {
      ShedExactly(g, vec, n, b);
      assert n'.irqfds == g.left;
      assert NoVectors(g, n') <==> g.others + Shed(n.table.value, vec, k) == g.others;
    }
  }

  lemma ShedExactly(g: Geometry, vec: seq<nat>, n: Notifiers, b: seq<nat>)
    requires WellShaped(g, vec, n) && |b| == VIRTIO_PCI_QUEUE_MAX && TableBound(g, b, n, Stop(g.num, n.nvqs))
    requires !Crowded(b, vec, Stop(g.num, n.nvqs), g.nr)
    ensures g.others + Shed(n.table.value, vec, Stop(g.num, n.nvqs)) == g.others <==> AsCrowded(b, vec, Stop(g.num, n.nvqs), g.nr)
  {
    var t, k := n.table.value, Stop(g.num, n.nvqs);
    if v :| 0 <= v < g.nr && UsersOf(vec, k, v) != UsersOf(b, k, v) {
      assert UsersOf(vec, k, v) < UsersOf(b, k, v) == t[v].users;
      assert t[v].virq in Own(t) && t[v].virq in Shed(t, vec, k);
    }
    if AsCrowded(b, vec, k, g.nr) {
      assert Shed(t, vec, k) == {};
    }
  }

  /** Once nobody will give them back, left irqfds and routes count as live beside any
      later table. */
  ghost function LeaveBehind(g: Geometry, n: Notifiers): Geometry { g.(others := n.routes, left := n.irqfds) }

  lemma LeftBehindIsUnassigned(g: Geometry, vec: seq<nat>, n: Notifiers, withIrqfd: bool, b: seq<nat>, n': Notifiers)
    requires WellShaped(g, vec, n) && |b| == VIRTIO_PCI_QUEUE_MAX && LeftStranded(g)
    requires DeassignLeaves(g, vec, n, withIrqfd, b, n')
    requires n'.table == None && GuestUpTo(n', 0, false) && !n'.callbacks
    ensures Unassigned(LeaveBehind(g, n'), n') && LeftStranded(LeaveBehind(g, n'))
  {
  }

  /** The vectors once deassigned: from a consistent state this faults and leaves as said above. */
  ghost predicate VectorsGone(g: Geometry, vec: seq<nat>, n: Notifiers, f: bool, withIrqfd: bool, b: seq<nat>, n': Notifiers, f': bool)
    requires WellShaped(g, vec, n) && |b| == VIRTIO_PCI_QUEUE_MAX
  {
    && n'.table == None && !n'.callbacks
    && (Consistent(g, vec, n, InUse(withIrqfd, b, withIrqfd && !g.hasMask)) ==>
          && f' == (f || DeassignFaults(g, vec, n, withIrqfd, b))
          && (!DeassignFaults(g, vec, n, withIrqfd, b) ==> DeassignLeaves(g, vec, n, withIrqfd, b, n')))
  }

  lemma UnboundAreGone(g: Geometry, vec: seq<nat>, n: Notifiers, h: seq<bool>, f: bool, b: seq<nat>, n': Notifiers, s: Live)
    requires WellShaped(g, vec, n) && |b| == VIRTIO_PCI_QUEUE_MAX && TableBound(g, b, n, Stop(g.num, n.nvqs))
    requires Unbound(g, b, vec, Stop(g.num, n.nvqs), n.masked, LiveOf(n, h, f), s)
    requires n'.table == None && !n'.callbacks && n'.irqfds == s.i && n'.routes == s.r
    ensures VectorsGone(g, vec, n, f, true, b, n', s.f)
  {
    if g.hasMask {
      HotCases(g, b, Stop(g.num, n.nvqs), n.masked);
      if Consistent(g, vec, n, InUse(true, b, false)) {
        assert BoundBy(g, b, LiveOf(n, h, f), Stop(g.num, n.nvqs));
      }
    } else {
      UnheldExactly(g, vec, n, h, f);
    }
  }

  lemma UnheldExactly(g: Geometry, vec: seq<nat>, n: Notifiers, h: seq<bool>, f: bool)
    requires WellShaped(g, vec, n) && n.table.Some?
    ensures var Q := HotBelow(vec, Stop(g.num, n.nvqs), n.masked, g.nr);
      Unheld(g, vec, n) == {} <==> InPlace(LiveOf(n, h, f), vec, Q) == Q
  {
    var Q := HotBelow(vec, Stop(g.num, n.nvqs), n.masked, g.nr);
    var P := InPlace(LiveOf(n, h, f), vec, Q);
    assert Unheld(g, vec, n) == Q - P && P <= Q;
    if Q - P == {} {
      forall q | q in Q ensures q in P {
        assert q !in Q - P;
      }
    }
  }

  /** The outcome of an assignment: every queue has its notifier and its vectors, and the
      class has been told to let it notify; or nothing is assigned. Without irqfds a table
      that is left over stays. */
  ghost predicate AssignResult(g: Geometry, vec: seq<nat>, n: Notifiers, h: seq<bool>, withIrqfd: bool, ok: bool, n': Notifiers, h': seq<bool>)
    requires |vec| == |h| == VIRTIO_PCI_QUEUE_MAX == |g.num| && n'.nvqs <= VIRTIO_PCI_QUEUE_MAX && |n'.masked| == g.nr
  {
    && (!withIrqfd ==> n'.table == n.table)
    && if ok then Assigned(g, vec, n', withIrqfd) && HooksTold(g, vec, n', h, h', Stop(g.num, n'.nvqs), false)
       else Unassigned(g, n') && HooksKept(h, h')
  }

  /** The outcome of a deassignment: the vectors are gone, every guest notifier is cleaned
      up, and the class has been told so. */
  ghost predicate DeassignResult(g: Geometry, vec: seq<nat>, n: Notifiers, h: seq<bool>, f: bool, withIrqfd: bool, b: seq<nat>,
                                 n': Notifiers, h': seq<bool>, f': bool)
    requires WellShaped(g, vec, n) && |b| == |h| == VIRTIO_PCI_QUEUE_MAX
  {
    && VectorsGone(g, vec, n, f, withIrqfd, b, n', f') && GuestUpTo(n', 0, false)
    && HooksTold(g, vec, n, h, h', Stop(g.num, n.nvqs), true)
  }

  /** What the mask callback does to the notifier state, when it is registered. */
  ghost predicate MaskStep(g: Geometry, vec: seq<nat>, n: Notifiers, f: bool, h: seq<bool>, n': Notifiers, f': bool, h': seq<bool>, v: nat)
    requires WellShaped(g, vec, n) && v < g.nr && (n.callbacks ==> g.hasMask || n.table.Some?)
  {
    && n' == n.(masked := n.masked[v := true], irqfds := n'.irqfds)
    && if n.masked[v] || !n.callbacks then
         n'.irqfds == n.irqfds && f' == f && h' == h
       else
         MaskedNow(g, vec, LiveOf(n, h, f), LiveOf(n', h', f'), v, Stop(g.num, n.nvqs))
  }

  /** What the unmask callback does; when it fails the vector stays masked. */
  ghost predicate UnmaskStep(g: Geometry, vec: seq<nat>, n: Notifiers, h: seq<bool>, ok: bool, n': Notifiers, h': seq<bool>, v: nat)
    requires WellShaped(g, vec, n) && v < g.nr && (n.callbacks ==> g.hasMask || n.table.Some?)
  {
    && n.msixEnabled
    && if !ok then
         && n.masked[v] && n.callbacks && n' == n && HooksKept(h, h')
         && forall q :: 0 <= q < |h| && q < |vec| && vec[q] != v ==> h'[q] == h[q]
       else
         && n' == n.(masked := n.masked[v := false], irqfds := n'.irqfds)
         && if !n.masked[v] || !n.callbacks then
              n'.irqfds == n.irqfds && h' == h
            else
              Unmasked(g, vec, LiveOf(n, h, false), LiveOf(n', h', false), v, Stop(g.num, n.nvqs))
  }

  lemma HotMasked(g: Geometry, vec: seq<nat>, k: nat, masked: seq<bool>, v: nat, b: bool)
    requires k <= |vec| && v < |masked|
    ensures var H, H' := Hot(vec, k, HotVectors(g, masked)), Hot(vec, k, HotVectors(g, masked[v := b]));
      if g.hasMask then H' == H else if b then H' == H - OnVector(vec, k, v) else H' == H + OnVector(vec, k, v)
    ensures !g.hasMask && masked[v] ==> Hot(vec, k, HotVectors(g, masked)) !! OnVector(vec, k, v)
    ensures g.hasMask || !masked[v] ==> OnVector(vec, k, v) <= Hot(vec, k, HotVectors(g, masked))
  {
  }

  /** Masking vector `v` meets a queue on it without an irqfd on its route. */
  ghost predicate MaskFaults(g: Geometry, vec: seq<nat>, n: Notifiers, v: nat)
    requires WellShaped(g, vec, n)
  {
    v < g.nr && n.callbacks && !g.hasMask && exists q :: q in Unheld(g, vec, n) && vec[q] == v
  }

  /** That is exactly when masking a vector faults. */
  lemma MaskFaultsExactly(g: Geometry, vec: seq<nat>, n: Notifiers, f: bool, h: seq<bool>, n': Notifiers, f': bool, h': seq<bool>, v: nat)
    requires WellShaped(g, vec, n) && v < g.nr && (n.callbacks ==> g.hasMask || n.table.Some?)
    requires MaskStep(g, vec, n, f, h, n', f', h', v)
    ensures f' == (f || MaskFaults(g, vec, n, v))
  {
    if n.callbacks && !n.masked[v] && !g.hasMask {
      var Q := OnVector(vec, Stop(g.num, n.nvqs), v);
      var T := There(LiveOf(n, h, f), v, Q);
      if q :| q in Unheld(g, vec, n) && vec[q] == v {
        assert q in Q && q !in T;
      }
      if T != Q {
        var q :| q in Q && q !in T;
        assert q in Unheld(g, vec, n) && vec[q] == v;
      }
    }
  }

  lemma MaskKeepsInStep(g: Geometry, b: seq<nat>, vec: seq<nat>, n: Notifiers, f: bool, h: seq<bool>, n': Notifiers, f': bool, h': seq<bool>, v: nat)
    requires Consistent(g, vec, n, InUse(true, b, false)) && v < g.nr
    requires MaskStep(g, vec, n, f, h, n', f', h', v)
    ensures IrqfdsInStep(g, Ruling(g, b, vec), n', Stop(g.num, n.nvqs))
  {
    var k := Stop(g.num, n.nvqs);
    HotMasked(g, Ruling(g, b, vec), k, n.masked, v, true);
    if !g.hasMask && !n.masked[v] {
      var Q := OnVector(vec, k, v);
      assert There(LiveOf(n, h, f), v, Q) == Q;
    }
  }

  /** Masking a vector keeps irqfds in step if they are, and then never faults. */
  lemma MaskKeepsConsistent(g: Geometry, vec: seq<nat>, n: Notifiers, m: Mode, f: bool, h: seq<bool>, n': Notifiers, f': bool, h': seq<bool>, v: nat)
    requires Consistent(g, vec, n, m) && v < g.nr
    requires MaskStep(g, vec, n, f, h, n', f', h', v)
    ensures Consistent(g, vec, n', if MaskFaults(g, vec, n, v) then Broken else m) && f' == (f || MaskFaults(g, vec, n, v))
    ensures m.InUse? && !m.adrift ==> !MaskFaults(g, vec, n, v)
  {
    MaskFaultsExactly(g, vec, n, f, h, n', f', h', v);
    if m.InUse? && m.withIrqfd && !m.adrift {
      MaskKeepsInStep(g, m.bound, vec, n, f, h, n', f', h', v);
      if !g.hasMask {
        InStepIsHeld(g, vec, n, m.bound);
      }
    }
  }

  lemma UnmaskKeepsInStep(g: Geometry, b: seq<nat>, vec: seq<nat>, n: Notifiers, h: seq<bool>, ok: bool, n': Notifiers, h': seq<bool>, v: nat)
    requires Consistent(g, vec, n, InUse(true, b, false)) && v < g.nr
    requires UnmaskStep(g, vec, n, h, ok, n', h', v)
    ensures IrqfdsInStep(g, Ruling(g, b, vec), n', Stop(g.num, n.nvqs))
  {
    HotMasked(g, Ruling(g, b, vec), Stop(g.num, n.nvqs), n.masked, v, false);
  }

  /** Unmasking a vector keeps irqfds in step, whether or not it succeeds. */
  lemma UnmaskKeepsConsistent(g: Geometry, vec: seq<nat>, n: Notifiers, m: Mode, h: seq<bool>, ok: bool, n': Notifiers, h': seq<bool>, v: nat)
    requires Consistent(g, vec, n, m) && v < g.nr
    requires UnmaskStep(g, vec, n, h, ok, n', h', v)
    ensures Consistent(g, vec, n', m)
  {
    if m.InUse? && m.withIrqfd && !m.adrift {
      UnmaskKeepsInStep(g, m.bound, vec, n, h, ok, n', h', v);
    }
  }

  /** What is beside the table once every vector is masked without a callback: a class
      without mask hook loses hold of all its irqfds, as nothing will remove them any more. */
  ghost function Silenced(g: Geometry, n: Notifiers, m: Mode): Geometry {
    if m.InUse? && m.withIrqfd && !m.adrift && !g.hasMask then g.(left := n.irqfds) else g
  }

  ghost predicate AllMasked(n: Notifiers) { forall v :: 0 <= v < |n.masked| ==> n.masked[v] }

  lemma SilentMaskKeepsConsistent(g: Geometry, vec: seq<nat>, n: Notifiers, m: Mode, n': Notifiers)
    requires Consistent(g, vec, n, m)
    requires n' == n.(masked := n'.masked, msixEnabled := n'.msixEnabled) && |n'.masked| == g.nr && AllMasked(n')
    ensures Consistent(Silenced(g, n, m), vec, n', m)
  {
    if m.InUse? && m.withIrqfd {
      var k := Stop(g.num, n.nvqs);
      if g.hasMask {
        assert HotVectors(g, n'.masked) == HotVectors(g, n.masked);
      } else {
        assert Hot(vec, k, HotVectors(g, n'.masked)) == {};
      }
    }
  }

  /** Those irqfds are exactly the ones of queues on unmasked vectors, so nothing is lost
      if and only if there is no such queue. */
  lemma SilencedExactly(g: Geometry, vec: seq<nat>, n: Notifiers, b: seq<nat>)
    requires Consistent(g, vec, n, InUse(true, b, false)) && !g.hasMask
    ensures forall q: nat :: q in Silenced(g, n, InUse(true, b, false)).left <==>
      q in g.left || (q < Stop(g.num, n.nvqs) && vec[q] < g.nr && !n.masked[vec[q]])
    ensures Silenced(g, n, InUse(true, b, false)) == g <==> Hot(vec, Stop(g.num, n.nvqs), HotVectors(g, n.masked)) == {}
  {
    var H := Hot(vec, Stop(g.num, n.nvqs), HotVectors(g, n.masked));
    assert n.irqfds.Keys == g.left.Keys + H;
    forall q: nat ensures q in H <==> q < Stop(g.num, n.nvqs) && vec[q] < g.nr && !n.masked[vec[q]] {}
  }

  /** A queue with an irqfd left behind cannot be assigned with irqfds again: no assignment
      succeeds that would give it another. */
  lemma AssignedAvoidsLeft(g: Geometry, b: seq<nat>, n: Notifiers, q: nat)
    requires |b| == VIRTIO_PCI_QUEUE_MAX == |g.num| && n.nvqs <= VIRTIO_PCI_QUEUE_MAX && |n.masked| == g.nr
    requires Assigned(g, b, n, true) && q in g.left && q < Stop(g.num, n.nvqs) && b[q] < g.nr
    ensures !g.hasMask && n.masked[b[q]]
  {
    assert q !in Hot(b, Stop(g.num, n.nvqs), HotVectors(g, n.masked));
  }
}

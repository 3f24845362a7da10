/** Saving the vectors of a virtio-pci device to a migration stream and loading them. */
module MigrationSpec {
  import opened VectorCounting
  import opened NotifierSpec
  import opened RegisterSpec

  /** A 16-bit big-endian word as two bytes; a stream that has run dry yields zeros. */
  function Be16(v: nat): seq<nat> { [v / 256 % 256, v % 256] }

  function Byte(s: seq<nat>, i: nat): nat { if i < |s| then s[i] else 0 }

  function Get16(s: seq<nat>): nat { Byte(s, 0) * 256 + Byte(s, 1) }

  function Rest16(s: seq<nat>): seq<nat> { if |s| < 2 then [] else s[2..] }

  /** Two bytes, the high one first, read back as written. */
  lemma Be16RoundTrip(v: nat, rest: seq<nat>)
    requires v < 0x1_0000
    ensures |Be16(v)| == 2 && Be16(v)[0] * 256 + Be16(v)[1] == v && 0 <= Be16(v)[0] < 256 && 0 <= Be16(v)[1] < 256
    ensures Get16(Be16(v) + rest) == v && Rest16(Be16(v) + rest) == rest
  {
  }

  /** The outcome of loading: an error code, the registers, the unread stream. */
  datatype Loaded = Loaded(ret: int, regs: Registers, rest: seq<nat>)

  function SaveConfig(p: Plug, r: Registers): seq<nat> {
    if p.nr > 0 then Be16(r.configVector) else []
  }

  function SaveQueue(p: Plug, r: Registers, n: nat): seq<nat> {
    if p.nr > 0 then Be16(QueueVector(r, n)) else []
  }

  function ReadVector(p: Plug, s: seq<nat>): (nat, seq<nat>) {
    if p.nr > 0 then (Get16(s), Rest16(s)) else (VIRTIO_NO_VECTOR, s)
  }

  /** Counts the use of a loaded vector; an out-of-range one is an error. */
  function CountLoaded(p: Plug, r: Registers, v: nat, rest: seq<nat>): Loaded {
    if v == VIRTIO_NO_VECTOR then Loaded(0, r, rest)
    else if v < |r.used| then Loaded(0, r.(used := UseVector(r.used, v)), rest)
    else Loaded(-22, r, rest)
  }

  function LoadConfig(p: Plug, r: Registers, s: seq<nat>): Loaded {
    var (v, rest) := ReadVector(p, s);
    CountLoaded(p, r.(used := Zeros(|r.used|), configVector := v), v, rest)
  }

  function LoadQueue(p: Plug, r: Registers, n: nat, s: seq<nat>): Loaded {
    var (v, rest) := ReadVector(p, s);
    CountLoaded(p, SetQueueVector(r, n, v), v, rest)
  }

  /** The virtio core saves and loads the first `k` queues in order, stopping at the first error. */
  function SaveQueues(p: Plug, r: Registers, k: nat): seq<nat> {
    if k == 0 then [] else SaveQueues(p, r, k - 1) + SaveQueue(p, r, k - 1)
  }

  function LoadQueues(p: Plug, r: Registers, s: seq<nat>, k: nat): Loaded {
    if k == 0 then Loaded(0, r, s)
    else
      var l := LoadQueues(p, r, s, k - 1);
      if l.ret < 0 then l else LoadQueue(p, l.regs, k - 1, l.rest)
  }

  function Save(p: Plug, r: Registers, k: nat): seq<nat> { SaveConfig(p, r) + SaveQueues(p, r, k) }

  function Load(p: Plug, r: Registers, s: seq<nat>, k: nat): Loaded {
    var l := LoadConfig(p, r, s);
    if l.ret < 0 then l else LoadQueues(p, l.regs, l.rest, k)
  }

  /** Loading one queue stores the vector read, in range or not, and counts it if it is. */
  lemma LoadQueueStep(p: Plug, r: Registers, n: nat, s: seq<nat>)
    requires RegisterShape(p, r) && n < |r.vector|
    ensures var (v, l) := (ReadVector(p, s).0, LoadQueue(p, r, n, s));
      && RegisterShape(p, l.regs)
      && l.regs == r.(vector := r.vector[n := v], used := l.regs.used)
      && l.rest == ReadVector(p, s).1
      && (l.ret >= 0 <==> InRange(p.nr, v))
      && (l.ret >= 0 ==> forall w :: 0 <= w < p.nr ==> l.regs.used[w] == r.used[w] + if w == v then 1 else 0)
  {
  }

  /** Loading the configuration vector forgets every earlier use. */
  lemma LoadConfigStep(p: Plug, r: Registers, s: seq<nat>)
    requires RegisterShape(p, r)
    ensures var (v, l) := (ReadVector(p, s).0, LoadConfig(p, r, s));
      && RegisterShape(p, l.regs)
      && l.regs == r.(configVector := v, used := l.regs.used)
      && l.rest == ReadVector(p, s).1
      && (l.ret >= 0 <==> InRange(p.nr, v))
      && (l.ret >= 0 ==> forall w :: 0 <= w < p.nr ==> l.regs.used[w] == if w == v then 1 else 0)
  {
  }

  lemma ReadSaved(p: Plug, v: nat, tail: seq<nat>)
    requires InRange(p.nr, v) && p.nr <= MSIX_MAX_ENTRIES
    ensures ReadVector(p, (if p.nr > 0 then Be16(v) else []) + tail) == (v, tail)
  {
    Be16RoundTrip(v, tail);
    assert [] + tail == tail;
  }

  /** The outcome of loading the first `k` queues of `r` into `r0`, with `tail` left over:
      every loaded queue is counted on top of the counts at the start. */
  ghost predicate LoadedUpTo(p: Plug, r: Registers, r0: Registers, l: Loaded, k: nat, tail: seq<nat>)
    requires k <= |r.vector| && k <= |r0.vector| && |r0.used| == p.nr
  {
    && l.ret >= 0 && l.rest == tail && RegisterShape(p, l.regs)
    && l.regs == r0.(vector := r.vector[..k] + r0.vector[k..], used := l.regs.used)
    && forall v :: 0 <= v < p.nr ==> l.regs.used[v] == r0.used[v] + UsersOf(r.vector, k, v)
  }

  /** Loading what was saved succeeds and consumes exactly what was saved. */
  lemma {:induction false} LoadSavedQueues(p: Plug, r: Registers, r0: Registers, k: nat, tail: seq<nat>)
    requires Accounting(p, r) && RegisterShape(p, r0) && k <= VIRTIO_PCI_QUEUE_MAX
    ensures LoadedUpTo(p, r, r0, LoadQueues(p, r0, SaveQueues(p, r, k) + tail, k), k, tail)
  {
    if k == 0 {
      assert SaveQueues(p, r, 0) + tail == tail;
      assert r.vector[..0] + r0.vector[0..] == r0.vector;
    } else {
      var w := SaveQueue(p, r, k - 1);
      LoadSavedQueues(p, r, r0, k - 1, w + tail);
      assert SaveQueues(p, r, k) + tail == SaveQueues(p, r, k - 1) + (w + tail);
      LoadOneMore(p, r, r0, LoadQueues(p, r0, SaveQueues(p, r, k) + tail, k - 1), k - 1, tail);
    }
  }

  lemma LoadOneMore(p: Plug, r: Registers, r0: Registers, l: Loaded, j: nat, tail: seq<nat>)
    requires Accounting(p, r) && RegisterShape(p, r0) && j < VIRTIO_PCI_QUEUE_MAX
    requires LoadedUpTo(p, r, r0, l, j, SaveQueue(p, r, j) + tail)
    ensures LoadedUpTo(p, r, r0, LoadQueue(p, l.regs, j, l.rest), j + 1, tail)
  {
    LoadSavedQueue(p, r, l.regs, j, tail);
    assert (r.vector[..j] + r0.vector[j..])[j := r.vector[j]] == r.vector[..j + 1] + r0.vector[j + 1..];
  }

  lemma LoadSavedQueue(p: Plug, r: Registers, r0: Registers, n: nat, tail: seq<nat>)
    requires Accounting(p, r) && RegisterShape(p, r0) && n < VIRTIO_PCI_QUEUE_MAX
    ensures var l := LoadQueue(p, r0, n, SaveQueue(p, r, n) + tail);
      && l.ret >= 0 && l.rest == tail && RegisterShape(p, l.regs)
      && l.regs == r0.(vector := r0.vector[n := r.vector[n]], used := l.regs.used)
      && forall v :: 0 <= v < p.nr ==> l.regs.used[v] == r0.used[v] + if v == r.vector[n] then 1 else 0
  {
    ReadSaved(p, r.vector[n], tail);
    LoadQueueStep(p, r0, n, SaveQueue(p, r, n) + tail);
  }

  /** The queues beyond `k` do not count when none of them has a vector. */
  lemma CountPrefix(vec: seq<nat>, vec': seq<nat>, nr: nat, k: nat)
    requires k <= |vec| && k <= |vec'| && vec[..k] == vec'[..k] && nr <= MSIX_MAX_ENTRIES
    requires forall q :: k <= q < |vec'| ==> vec'[q] == VIRTIO_NO_VECTOR
    ensures forall v :: 0 <= v < nr ==> Mapped(vec', v) == UsersOf(vec, k, v)
  {
    forall v | 0 <= v < nr ensures Mapped(vec', v) == UsersOf(vec, k, v) {
      UsersOfTail(vec', k, |vec'|, v);
      assert forall q :: 0 <= q < k ==> vec[q] == vec[..k][q] == vec'[..k][q] == vec'[q];
      UsersOfAgree(vec', vec, k, v);
    }
  }

  /** Migrating into a fresh device of the same geometry always succeeds, and restores
      the configuration vector, the saved queues and their use counts. Everything is
      restored exactly when no queue beyond the saved ones has a vector. */
  lemma MigrationRestores(p: Plug, r: Registers, r0: Registers, k: nat)
    requires Accounting(p, r) && Accounting(p, r0) && k <= VIRTIO_PCI_QUEUE_MAX
    requires forall q :: k <= q < VIRTIO_PCI_QUEUE_MAX ==> r0.vector[q] == VIRTIO_NO_VECTOR
    ensures var l := Load(p, r0, Save(p, r, k), k);
      && l.ret >= 0 && l.rest == []
      && l.regs.configVector == r.configVector && l.regs.vector == r.vector[..k] + r0.vector[k..]
      && Accounting(p, l.regs)
      && (l.regs.vector == r.vector && l.regs.used == r.used
          <==> forall q :: k <= q < VIRTIO_PCI_QUEUE_MAX ==> r.vector[q] == VIRTIO_NO_VECTOR)
  {
    var saved := SaveQueues(p, r, k);
    assert saved + [] == saved;
    ReadSaved(p, r.configVector, saved);
    LoadConfigStep(p, r0, Save(p, r, k));
    var c := LoadConfig(p, r0, Save(p, r, k));
    LoadSavedQueues(p, r, c.regs, k, []);
    var l := Load(p, r0, Save(p, r, k), k);
    assert l.regs.vector == r.vector[..k] + r0.vector[k..];
    CountPrefix(r.vector, l.regs.vector, p.nr, k);
    RestoredExactly(p, r, l.regs, k);
  }

  lemma RestoredExactly(p: Plug, r: Registers, r': Registers, k: nat)
    requires Accounting(p, r) && Accounting(p, r') && k <= VIRTIO_PCI_QUEUE_MAX
    requires r'.configVector == r.configVector && r'.vector[..k] == r.vector[..k]
    requires forall q :: k <= q < VIRTIO_PCI_QUEUE_MAX ==> r'.vector[q] == VIRTIO_NO_VECTOR
    ensures r'.vector == r.vector && r'.used == r.used <==> forall q :: k <= q < VIRTIO_PCI_QUEUE_MAX ==> r.vector[q] == VIRTIO_NO_VECTOR
  {
    if forall q :: k <= q < VIRTIO_PCI_QUEUE_MAX ==> r.vector[q] == VIRTIO_NO_VECTOR {
      assert r'.vector[k..] == r.vector[k..];
      assert r'.vector == r'.vector[..k] + r'.vector[k..] == r.vector;
    }
  }

  /** Any stream at all: loading fails exactly when a vector in it is out of range, and
      when it succeeds the counts are those of the loaded queues. */
  lemma {:induction false} LoadQueuesSound(p: Plug, r: Registers, s: seq<nat>, k: nat)
    requires RegisterShape(p, r) && k <= VIRTIO_PCI_QUEUE_MAX
    ensures var l := LoadQueues(p, r, s, k);
      && RegisterShape(p, l.regs)
      && l.regs == r.(vector := l.regs.vector, used := l.regs.used)
      && (forall q :: k <= q < VIRTIO_PCI_QUEUE_MAX ==> l.regs.vector[q] == r.vector[q])
      && (l.ret >= 0 <==> forall q :: 0 <= q < k ==> InRange(p.nr, l.regs.vector[q]))
      && (l.ret >= 0 ==> forall v :: 0 <= v < p.nr ==> l.regs.used[v] == r.used[v] + UsersOf(l.regs.vector, k, v))
  {
    if k > 0 {
      var j := k - 1;
      LoadQueuesSound(p, r, s, j);
      var l, l' := LoadQueues(p, r, s, j), LoadQueues(p, r, s, k);
      if l.ret >= 0 {
        LoadQueueStep(p, l.regs, j, l.rest);
        forall v | 0 <= v < p.nr ensures UsersOf(l'.regs.vector, j, v) == UsersOf(l.regs.vector, j, v) {
          UsersOfAgree(l'.regs.vector, l.regs.vector, j, v);
        }
        assert l'.regs.vector[j] == ReadVector(p, l.rest).0;
        assert forall q :: 0 <= q < j ==> l'.regs.vector[q] == l.regs.vector[q];
      }
    }
  }

  /** A successful load establishes the accounting in a device whose other queues have
      no vector, whatever the stream. */
  lemma LoadEstablishesAccounting(p: Plug, r: Registers, s: seq<nat>, k: nat)
    requires RegisterShape(p, r) && r.queueSel < VIRTIO_PCI_QUEUE_MAX && k <= VIRTIO_PCI_QUEUE_MAX
    requires forall q :: k <= q < VIRTIO_PCI_QUEUE_MAX ==> r.vector[q] == VIRTIO_NO_VECTOR
    requires Load(p, r, s, k).ret >= 0
    ensures Accounting(p, Load(p, r, s, k).regs)
  {
    LoadConfigStep(p, r, s);
    var c := LoadConfig(p, r, s);
    LoadQueuesSound(p, c.regs, c.rest, k);
    var l := Load(p, r, s, k);
    CountPrefix(l.regs.vector, l.regs.vector, p.nr, k);
  }

  /** Into a device whose counts are right a successful load leaves them right exactly
      when no queue beyond the loaded ones has a vector: the load forgets their uses. */
  lemma LoadKeepsAccountingExactly(p: Plug, r: Registers, s: seq<nat>, k: nat)
    requires Accounting(p, r) && k <= VIRTIO_PCI_QUEUE_MAX && Load(p, r, s, k).ret >= 0
    ensures Accounting(p, Load(p, r, s, k).regs) <==> forall q :: k <= q < VIRTIO_PCI_QUEUE_MAX ==> r.vector[q] == VIRTIO_NO_VECTOR
  {
    LoadConfigStep(p, r, s);
    var c := LoadConfig(p, r, s);
    LoadQueuesSound(p, c.regs, c.rest, k);
    var l := Load(p, r, s, k).regs;
    if Accounting(p, l) {
      forall q | k <= q < VIRTIO_PCI_QUEUE_MAX ensures r.vector[q] == VIRTIO_NO_VECTOR {
        assert l.vector[q] == r.vector[q];
        UsersOfTail(l.vector, k, |l.vector|, r.vector[q]);
      }
    } else if forall q :: k <= q < VIRTIO_PCI_QUEUE_MAX ==> r.vector[q] == VIRTIO_NO_VECTOR {
      LoadEstablishesAccounting(p, r, s, k);
    }
  }
}

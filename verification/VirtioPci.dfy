/** The virtio-pci transport proxy: guest notifiers, irqfds and KVM routes; MSI-X use
    counts, ioeventfd and the register window; migration. */
module VirtioPci {
  import opened Options
  import opened NotifierSpec
  import opened RegisterSpec
  import opened MigrationSpec

  /** The part of a migration stream that holds vectors. */
  class QEMUFile {
    var data: seq<nat>

    method PutBe16(v: nat)
      modifies this
      ensures data == old(data) + Be16(v)
    {
      data := data + [v / 256 % 256, v % 256];
    }

    method GetBe16() returns (v: nat)
      modifies this
      ensures v == Get16(old(data)) && data == Rest16(old(data))
    {
      var high := if |data| > 0 then data[0] else 0;
      var low := if |data| > 1 then data[1] else 0;
      data := if |data| < 2 then [] else data[2..];
      return high * 256 + low;
    }
  }

  class VirtIOPCIProxy {
    // Geometry of the device: fixed once it is plugged.
    const nr: nat                         // msix_nr_vectors_allocated
    const hasMask: bool                   // the class provides guest_notifier_mask
    const viaIrqfd: bool                  // kvm_msi_via_irqfd_enabled
    const num: seq<nat>                   // virtio_queue_get_num
    const useIoeventfd: bool              // VIRTIO_PCI_FLAG_USE_IOEVENTFD

    // MSI-X and queue state.
    var vector: seq<nat>
    var msixEnabled: bool
    var masked: seq<bool>                 // msix_is_masked, per vector
    var callbacks: bool                   // MSI-X vector notifiers registered

    // Notifier state.
    var vectorIrqfd: Option<seq<VirtIOIRQFD>>
    var nvqsWithNotifiers: nat
    var guestNotifier: seq<int>           // initialisations minus cleanups, per queue
    var guestHandler: seq<bool>
    var hookMasked: seq<bool>             // last argument given to guest_notifier_mask, per queue

    // Registers and MSI-X use counts.
    var configVector: nat
    var queueSel: nat
    var status: nat
    var used: seq<nat>
    var busMaster: bool
    var busMasterBug: bool                // VIRTIO_PCI_FLAG_BUS_MASTER_BUG

    // Host notifiers.
    var ioeventfdStarted: bool
    var ioeventfdDisabled: bool
    var hostNotifier: seq<int>            // initialisations minus cleanups, per queue
    var hostHandler: seq<bool>
    ghost var hostDoubled: bool           // some was initialised or cleaned up twice

    // KVM, and what of it is beside the table: routes of other devices or left behind, and
    // irqfds left behind. The methods leave `others` and `left` to their callers.
    var routes: set<int>
    var irqfds: map<nat, int>
    ghost var others: set<int>
    ghost var left: map<nat, int>

    // Set when an assertion of the source fails or a user count wraps below zero.
    var faulted: bool

    // How often KVM has refused a request, and event_notifier_init has failed.
    ghost var refused: nat
    ghost var failedInits: nat

    // A freshly plugged device, without vectors and notifiers in use.
    constructor (nr: nat, hasMask: bool, viaIrqfd: bool, num: seq<nat>, useIoeventfd: bool, busMasterBug: bool, others: set<int>)
      requires nr <= MSIX_MAX_ENTRIES && |num| == VIRTIO_PCI_QUEUE_MAX
      ensures Shaped() && Consistent(Geo(), vector, Snap(), Free) && vectorIrqfd == None && !faulted
      ensures Accounting(Slot(), Regs()) && HostNotifiersOwned(Slot(), Dev(), {}) && HandlersOwned(Slot(), Dev(), {}) && !hostDoubled
      ensures Geo() == Geometry(nr, hasMask, viaIrqfd, num, others, map[]) && Slot() == Plug(nr, num, useIoeventfd)
    {
      this.nr, this.hasMask, this.viaIrqfd, this.num := nr, hasMask, viaIrqfd, num;
      this.useIoeventfd, this.busMasterBug := useIoeventfd, busMasterBug;
      vector := NoVectors64();
      configVector, queueSel, status, used, busMaster := VIRTIO_NO_VECTOR, 0, 0, Zeros(nr), false;
      msixEnabled, masked, callbacks := false, seq(nr, _ => true), false;
      vectorIrqfd, nvqsWithNotifiers := None, 0;
      guestNotifier, guestHandler := seq(VIRTIO_PCI_QUEUE_MAX, _ => 0), seq(VIRTIO_PCI_QUEUE_MAX, _ => false);
      hookMasked := seq(VIRTIO_PCI_QUEUE_MAX, _ => false);
      ioeventfdStarted, ioeventfdDisabled := false, false;
      hostNotifier, hostHandler := seq(VIRTIO_PCI_QUEUE_MAX, _ => 0), seq(VIRTIO_PCI_QUEUE_MAX, _ => false);
      hostDoubled := false;
      routes, irqfds, faulted := others, map[], false;
      refused, failedInits := 0, 0;
      this.others, left := others, map[];
      new;
      ResetKeepsAccounting(Slot(), Regs());
      assert Regs() == ResetRegisters(Regs());
    }

    ghost function Geo(): Geometry
      reads this`others, this`left
    {
      Geometry(nr, hasMask, viaIrqfd, num, others, left)
    }

    ghost function Snap(): Notifiers
      reads this
    {
      Notifiers(vectorIrqfd, nvqsWithNotifiers, guestNotifier, guestHandler, routes, irqfds, callbacks, msixEnabled, masked)
    }

    ghost function Now(): Live
      reads this
    {
      LiveOf(Snap(), hookMasked, faulted)
    }

    ghost predicate Sized()
      reads this
    {
      && |num| == |vector| == |hookMasked| == VIRTIO_PCI_QUEUE_MAX
      && nvqsWithNotifiers <= VIRTIO_PCI_QUEUE_MAX
      && |masked| == nr
      && (vectorIrqfd.Some? ==> |vectorIrqfd.value| == nr)
    }

    ghost predicate Shaped()
      reads this
    {
      WellShaped(Geo(), vector, Snap()) && |hookMasked| == VIRTIO_PCI_QUEUE_MAX
    }

    // ----- KVM: each request may fail -----

    method AddMsiRoute() returns (virq: int)
      modifies `routes, `refused
      ensures virq < 0 ==> routes == old(routes)
      ensures virq >= 0 ==> virq !in old(routes) && routes == old(routes) + {virq}
      ensures refused == old(refused) + if virq < 0 then 1 else 0
    {
      var candidate: int := *;
      if candidate < 0 || candidate in routes {
        refused := refused + 1;
        return -1;
      }
      routes := routes + {candidate};
      return candidate;
    }

    method UpdateMsiRoute(virq: int) returns (ret: int)
      modifies `refused
      ensures ret >= 0 ==> virq in routes
      ensures refused == old(refused) + if ret < 0 then 1 else 0
    {
      var fail: bool := *;
      if fail || virq !in routes {
        refused := refused + 1;
        return -1;
      }
      return 0;
    }

    // A notifier carries at most one irqfd; attaching a second one is refused.
    method AddIrqfdNotifier(queue: nat, virq: int) returns (ret: int)
      modifies `irqfds, `refused
      ensures ret < 0 ==> irqfds == old(irqfds)
      ensures ret >= 0 ==> queue !in old(irqfds) && irqfds == old(irqfds)[queue := virq]
      ensures refused == old(refused) + if ret < 0 then 1 else 0
    {
      var fail: bool := *;
      if fail || queue in irqfds {
        refused := refused + 1;
        return -1;
      }
      irqfds := irqfds[queue := virq];
      return 0;
    }

    method RemoveIrqfdNotifier(queue: nat, virq: int) returns (ret: int)
      modifies `irqfds
      ensures ret == 0 <==> queue in old(irqfds) && old(irqfds)[queue] == virq
      ensures irqfds == if ret == 0 then old(irqfds) - {queue} else old(irqfds)
    {
      if queue in irqfds && irqfds[queue] == virq {
        irqfds := irqfds - {queue};
        return 0;
      }
      return -1;
    }

    // ----- one queue, one vector -----

    method VqVectorUse(v: nat) returns (ret: int)
      requires vectorIrqfd.Some? && v < |vectorIrqfd.value|
      modifies `vectorIrqfd, `routes, `refused
      ensures vectorIrqfd.Some?
      ensures if ret < 0 then Now() == old(Now()) else UseEffect(old(Now()), Now(), v)
      ensures refused == old(refused) + if ret < 0 then 1 else 0
    {
      var irqfd := vectorIrqfd.value[v];
      if irqfd.users == 0 {
        ret := AddMsiRoute();
        if ret < 0 {
          return;
        }
        irqfd := irqfd.(virq := ret);
      }
      irqfd := irqfd.(users := Inc(irqfd.users));
      vectorIrqfd := Some(vectorIrqfd.value[v := irqfd]);
      return 0;
    }

    method VqVectorRelease(v: nat)
      requires vectorIrqfd.Some? && v < |vectorIrqfd.value|
      modifies `vectorIrqfd, `routes, `faulted
      ensures vectorIrqfd.Some? && ReleaseEffect(old(Now()), Now(), v)
    {
      var irqfd := vectorIrqfd.value[v];
      if irqfd.users == 0 {
        faulted := true;
      }
      irqfd := irqfd.(users := Dec(irqfd.users));
      vectorIrqfd := Some(vectorIrqfd.value[v := irqfd]);
      if irqfd.users == 0 {
        routes := routes - {irqfd.virq};
      }
    }

    method IrqfdUse(queue: nat, v: nat) returns (ret: int)
      requires vectorIrqfd.Some? && v < |vectorIrqfd.value|
      modifies `irqfds, `refused
      ensures ret < 0 ==> irqfds == old(irqfds)
      ensures ret >= 0 ==> queue !in old(irqfds) && irqfds == old(irqfds)[queue := vectorIrqfd.value[v].virq]
      ensures refused == old(refused) + if ret < 0 then 1 else 0
    {
      ret := AddIrqfdNotifier(queue, vectorIrqfd.value[v].virq);
    }

    method IrqfdRelease(queue: nat, v: nat)
      requires vectorIrqfd.Some? && v < |vectorIrqfd.value|
      modifies `irqfds, `faulted
      ensures var there := queue in old(irqfds) && old(irqfds)[queue] == vectorIrqfd.value[v].virq;
        && irqfds == (if there then old(irqfds) - {queue} else old(irqfds))
        && faulted == (old(faulted) || !there)
    {
      var ret := RemoveIrqfdNotifier(queue, vectorIrqfd.value[v].virq);
      if ret != 0 {
        faulted := true;
      }
    }

    // ----- all queues -----

    ghost predicate HoldingHere(s0: Live, k: nat)
      requires k <= |vector|
      reads this
    {
      vectorIrqfd.Some? && Holding(Geo(), vector, s0, Now(), k)
    }

    // One turn of the acquisition loop.
    method UseQueue(queueNo: nat, v: nat, ghost s0: Live) returns (ret: int)
      requires queueNo < |vector| && v == vector[queueNo] < nr
      requires HoldingHere(s0, queueNo)
      requires vectorIrqfd.value[v].users + 1 < UINT32_RANGE
      modifies `vectorIrqfd, `routes, `irqfds, `faulted, `refused
      ensures HoldingHere(s0, if ret < 0 then queueNo else queueNo + 1)
      ensures refused == old(refused) + if ret < 0 then 1 else 0
    {
      ghost var s := Now();
      ret := VqVectorUse(v);
      if ret < 0 {
        return;
      }
      ghost var s1 := Now();
      if hasMask {
        ret := IrqfdUse(queueNo, v);
        if ret < 0 {
          VqVectorRelease(v);
          UseThenRelease(Geo(), vector, s0, s, queueNo, v, s1, Now());
          return;
        }
      }
      HoldingMore(Geo(), vector, s0, s, queueNo, s1, Now());
    }

    // The irqfd (if bound with the vector) and the user of one queue.
    method ReleaseQueue(queueNo: nat, v: nat)
      requires vectorIrqfd.Some? && v < |vectorIrqfd.value|
      modifies `vectorIrqfd, `routes, `irqfds, `faulted
      ensures vectorIrqfd.Some? && QueueReleased(Geo(), old(Now()), Now(), queueNo, v)
    {
      if hasMask {
        IrqfdRelease(queueNo, v);
      }
      VqVectorRelease(v);
    }

    // The same for a queue with or without a valid vector.
    method UseTurn(queueNo: nat, nvqs: nat, ghost s0: Live) returns (ret: int)
      requires Sized() && queueNo < nvqs <= VIRTIO_PCI_QUEUE_MAX && HoldingHere(s0, queueNo) && |s0.t| == nr
      requires forall v :: 0 <= v < nr ==> s0.t[v].users + nvqs < UINT32_RANGE
      modifies `vectorIrqfd, `routes, `irqfds, `faulted, `refused
      ensures HoldingHere(s0, if ret < 0 then queueNo else queueNo + 1)
      ensures refused == old(refused) + if ret < 0 then 1 else 0
    {
      var v := vector[queueNo];
      if v >= nr {
        HoldingSkip(Geo(), vector, s0, Now(), queueNo);
        return 0;
      }
      HoldingRoom(Geo(), vector, s0, Now(), queueNo, v, nvqs);
      ret := UseQueue(queueNo, v, s0);
    }

    // Either everything the first queues need is acquired, or nothing is.
    method VectorUse(nvqs: nat) returns (ret: int)
      requires Sized() && nvqs <= VIRTIO_PCI_QUEUE_MAX
      requires vectorIrqfd.Some? && RoutesMatch(vectorIrqfd.value, routes, others)
      requires forall v :: 0 <= v < nr ==> vectorIrqfd.value[v].users + nvqs < UINT32_RANGE
      modifies `vectorIrqfd, `routes, `irqfds, `faulted, `refused
      ensures ret >= 0 ==> HoldingHere(old(Now()), Stop(num, nvqs))
      ensures ret < 0 ==> HoldingHere(old(Now()), 0) && routes == old(routes) && irqfds == old(irqfds)
      ensures refused == old(refused) + if ret < 0 then 1 else 0
    {
      ghost var s0, k := Now(), Stop(num, nvqs);
      var queueNo := 0;
      while queueNo < nvqs
        invariant queueNo <= k && refused == old(refused)
        invariant HoldingHere(s0, queueNo)
      {
        if num[queueNo] == 0 {
          break;
        }
        ret := UseTurn(queueNo, nvqs, s0);
        if ret < 0 {
          UndoVectorUse(queueNo, s0);
          return;
        }
        queueNo := queueNo + 1;
      }
      assert queueNo == k;
      return 0;
    }

    // The `undo` tail of the acquisition loop.
    method UndoVectorUse(n: nat, ghost s0: Live)
      requires Sized() && n <= VIRTIO_PCI_QUEUE_MAX
      requires HoldingHere(s0, n)
      modifies `vectorIrqfd, `routes, `irqfds, `faulted
      ensures HoldingHere(s0, 0) && irqfds == s0.i && routes == others + Own(s0.t)
    {
      var queueNo := n;
      while queueNo > 0
        invariant 0 <= queueNo <= n
        invariant HoldingHere(s0, queueNo)
      {
        queueNo := queueNo - 1;
        var v := vector[queueNo];
        if v >= nr {
          HoldingSkip(Geo(), vector, s0, Now(), queueNo);
          continue;
        }
        ghost var s := Now();
        ReleaseQueue(queueNo, v);
        HoldingLess(Geo(), vector, s0, s, queueNo, Now());
      }
      HoldingNothing(Geo(), vector, s0, Now());
    }

    ghost predicate ReleasingHere(bound: seq<nat>, s0: Live, k: nat, q: nat)
      requires q <= k <= |vector| == |bound|
      reads this
    {
      vectorIrqfd.Some? && ReleaseProgress(Geo(), bound, vector, s0, k, Now(), q)
    }

    // Releases the first queues by their present vectors. From a state that holds these,
    // it takes away exactly their users, routes and irqfds; on an unused table it faults
    // as soon as there is a bound queue; and where irqfds were bound with the vectors
    // `bound`, it faults as soon as a queue has strayed to another one; without
    // a mask hook, as soon as more queues are on a vector than it has users.
    method VectorRelease(nvqs: nat, ghost bound: seq<nat>)
      requires Sized() && nvqs <= VIRTIO_PCI_QUEUE_MAX && vectorIrqfd.Some? && |bound| == |vector|
      modifies `vectorIrqfd, `routes, `irqfds, `faulted
      ensures ReleasingHere(bound, old(Now()), Stop(num, nvqs), Stop(num, nvqs))
    {
      ghost var s0, k := Now(), Stop(num, nvqs);
      ReleaseStart(Geo(), bound, vector, s0, k);
      var queueNo := 0;
      while queueNo < nvqs
        invariant queueNo <= k
        invariant ReleasingHere(bound, s0, k, queueNo)
      {
        if num[queueNo] == 0 {
          break;
        }
        var v := vector[queueNo];
        if v >= nr {
          ReleaseSkip(Geo(), bound, vector, s0, k, Now(), queueNo);
          queueNo := queueNo + 1;
          continue;
        }
        ghost var s := Now();
        ReleaseQueue(queueNo, v);
        ReleaseTurn(Geo(), bound, vector, s0, k, s, queueNo, Now());
        queueNo := queueNo + 1;
      }
    }

    // ----- mask and unmask callbacks -----

    method VqVectorUnmask(queueNo: nat, v: nat) returns (ret: int)
      requires queueNo < |hookMasked| && (vectorIrqfd.Some? ==> v < |vectorIrqfd.value|) && (hasMask || vectorIrqfd.Some?)
      modifies `irqfds, `hookMasked, `refused
      ensures if ret < 0 then Now() == old(Now()) else QueueUnmasked(Geo(), old(Now()), Now(), queueNo, v)
      ensures refused == old(refused) + if ret < 0 then 1 else 0
    {
      ret := 0;
      if vectorIrqfd.Some? {
        var messageDiffers: bool := *;
        if messageDiffers {
          ret := UpdateMsiRoute(vectorIrqfd.value[v].virq);
          if ret < 0 {
            return;
          }
        }
      }
      if hasMask {
        hookMasked := hookMasked[queueNo := false];
      } else {
        ret := IrqfdUse(queueNo, v);
      }
    }

    method VqVectorMask(queueNo: nat, v: nat)
      requires queueNo < |hookMasked| && (hasMask || (vectorIrqfd.Some? && v < |vectorIrqfd.value|))
      modifies `irqfds, `hookMasked, `faulted
      ensures QueueMasked(Geo(), old(Now()), Now(), queueNo, v)
    {
      if hasMask {
        hookMasked := hookMasked[queueNo := true];
      } else {
        IrqfdRelease(queueNo, v);
      }
    }

    ghost predicate UnmaskedHere(s0: Live, v: nat, q: nat)
      requires q <= |vector|
      reads this
    {
      Unmasked(Geo(), vector, s0, Now(), v, q)
    }

    // One turn of the unmask loop; on failure the queues before it are masked again.
    method UnmaskQueue(queueNo: nat, v: nat, ghost s0: Live) returns (ret: int)
      requires Sized() && queueNo < VIRTIO_PCI_QUEUE_MAX && v < nr && (hasMask || vectorIrqfd.Some?)
      requires UnmaskedHere(s0, v, queueNo)
      modifies `irqfds, `hookMasked, `faulted, `refused
      ensures if ret >= 0 then UnmaskedHere(s0, v, queueNo + 1) else Remasked(s0, v, queueNo)
      ensures refused == old(refused) + if ret < 0 then 1 else 0
    {
      ret := 0;
      ghost var s := Now();
      if vector[queueNo] == v {
        ret := VqVectorUnmask(queueNo, v);
        if ret < 0 {
          UndoVectorUnmask(queueNo, v, s0);
          return;
        }
      }
      UnmaskedMore(Geo(), vector, s0, s, v, queueNo, Now());
    }

    // Everything is as in `s0`, but for the mask hook having been called for the first `n` queues.
    ghost predicate Remasked(s0: Live, v: nat, n: nat)
      requires n <= |vector|
      reads this
    {
      Now() == s0.(h := if hasMask then SetHook(s0.h, OnVector(vector, n, v), true) else s0.h)
    }

    // Every queue of the vector, or none; `n` is how many queues an undo went back over.
    method VectorUnmask(v: nat) returns (ret: int, ghost n: nat)
      requires Sized() && v < nr && (hasMask || vectorIrqfd.Some?)
      modifies `irqfds, `hookMasked, `faulted, `refused
      ensures n <= Stop(num, nvqsWithNotifiers)
      ensures if ret >= 0 then UnmaskedHere(old(Now()), v, n) && n == Stop(num, nvqsWithNotifiers)
              else Remasked(old(Now()), v, n)
      ensures refused == old(refused) + if ret < 0 then 1 else 0
    {
      ghost var s0, k := Now(), Stop(num, nvqsWithNotifiers);
      UnmaskedStart(Geo(), vector, s0, v);
      var queueNo := 0;
      while queueNo < nvqsWithNotifiers
        invariant queueNo <= k && refused == old(refused)
        invariant UnmaskedHere(s0, v, queueNo)
      {
        if num[queueNo] == 0 {
          break;
        }
        ret := UnmaskQueue(queueNo, v, s0);
        if ret < 0 {
          return ret, queueNo;
        }
        queueNo := queueNo + 1;
      }
      assert queueNo == k;
      return 0, k;
    }

    ghost predicate UnwoundHere(s0: Live, v: nat, n: nat, q: nat)
      requires q <= n <= |vector|
      reads this
    {
      Unwound(Geo(), vector, s0, Now(), v, n, q)
    }

    // The `undo` tail of the unmask loop.
    method UndoVectorUnmask(n: nat, v: nat, ghost s0: Live)
      requires Sized() && n <= VIRTIO_PCI_QUEUE_MAX && v < nr && (hasMask || vectorIrqfd.Some?)
      requires UnmaskedHere(s0, v, n)
      modifies `irqfds, `hookMasked, `faulted
      ensures Remasked(s0, v, n)
    {
      var queueNo := n;
      UnwoundStart(Geo(), vector, s0, Now(), v, n);
      while queueNo > 0
        invariant 0 <= queueNo <= n && |hookMasked| == VIRTIO_PCI_QUEUE_MAX
        invariant UnwoundHere(s0, v, n, queueNo)
      {
        queueNo := queueNo - 1;
        UndoUnmaskTurn(queueNo, v, n, s0);
      }
      UnwoundEnd(Geo(), vector, s0, Now(), v, n);
    }

    method UndoUnmaskTurn(queueNo: nat, v: nat, ghost n: nat, ghost s0: Live)
      requires Sized() && queueNo < n <= VIRTIO_PCI_QUEUE_MAX && v < nr && (hasMask || vectorIrqfd.Some?)
      requires UnwoundHere(s0, v, n, queueNo + 1)
      modifies `irqfds, `hookMasked, `faulted
      ensures |hookMasked| == VIRTIO_PCI_QUEUE_MAX && UnwoundHere(s0, v, n, queueNo)
    {
      ghost var s := Now();
      if vector[queueNo] == v {
        VqVectorMask(queueNo, v);
      }
      UnwoundLess(Geo(), vector, s0, s, v, n, queueNo, Now());
    }

    method VectorMask(v: nat)
      requires Sized() && v < nr && (hasMask || vectorIrqfd.Some?)
      modifies `irqfds, `hookMasked, `faulted
      ensures MaskedNow(Geo(), vector, old(Now()), Now(), v, Stop(num, nvqsWithNotifiers))
    {
      ghost var g, vec, s0 := Geo(), vector, Now();
      var queueNo := 0;
      while queueNo < nvqsWithNotifiers
        invariant queueNo <= Stop(num, nvqsWithNotifiers) && |hookMasked| == |s0.h|
        invariant MaskedNow(g, vec, s0, Now(), v, queueNo)
      {
        if num[queueNo] == 0 {
          break;
        }
        ghost var s := Now();
        if vector[queueNo] == v {
          VqVectorMask(queueNo, v);
        }
        MaskedMore(g, vec, s0, s, v, queueNo, Now());
        queueNo := queueNo + 1;
      }
    }

    // ----- msix_set_vector_notifiers, msix_unset_vector_notifiers -----

    ghost predicate FiredHere(s0: Live, v: nat)
      requires Sized() && v <= nr
      reads this
    {
      Fired(Geo(), vector, Stop(num, nvqsWithNotifiers), masked, s0, Now(), v)
    }

    // The class has been told `b` of the queues of unmasked vectors.
    ghost predicate FiredHooks(h0: seq<bool>, b: bool)
      requires Sized()
      reads this
    {
      hookMasked == if hasMask then SetHook(h0, HotBelow(vector, Stop(num, nvqsWithNotifiers), masked, nr), b) else h0
    }

    // Unmasks every vector that is not masked; on failure masks them again.
    method MsixSetVectorNotifiers() returns (ret: int)
      requires Sized() && (hasMask || vectorIrqfd.Some?)
      modifies `irqfds, `hookMasked, `faulted, `callbacks, `refused
      ensures Sized() && callbacks == (ret >= 0)
      ensures if ret >= 0 then FiredHere(old(Now()), nr)
              else irqfds == old(irqfds) && faulted == old(faulted) && HooksKept(old(hookMasked), hookMasked)
      ensures refused == old(refused) + if ret < 0 then 1 else 0
    {
      callbacks := true;
      ghost var s0 := Now();
      assert HotBelow(vector, Stop(num, nvqsWithNotifiers), masked, 0) == {};
      var v := 0;
      while v < nr
        invariant v <= nr && Sized() && callbacks && refused == old(refused)
        invariant FiredHere(s0, v)
      {
        ret := MsixSetTurn(v, s0);
        if ret < 0 {
          callbacks := false;
          return;
        }
        v := v + 1;
      }
      return 0;
    }

    // One vector; on failure the vectors below it are masked again.
    method MsixSetTurn(v: nat, ghost s0: Live) returns (ret: int)
      requires Sized() && v < nr && (hasMask || vectorIrqfd.Some?)
      requires FiredHere(s0, v)
      modifies `irqfds, `hookMasked, `faulted, `refused
      ensures Sized()
      ensures if ret >= 0 then FiredHere(s0, v + 1) else irqfds == s0.i && faulted == s0.f && HooksKept(s0.h, hookMasked)
      ensures refused == old(refused) + if ret < 0 then 1 else 0
    {
      ret := 0;
      ghost var s := Now();
      if !masked[v] {
        ghost var n;
        ret, n := VectorUnmask(v);
        if ret < 0 {
          UndoMsixSet(v, s0);
          return;
        }
      }
      FiredMore(Geo(), vector, Stop(num, nvqsWithNotifiers), masked, s0, s, v, Now());
    }

    // Relative to `s0`, the queues of unmasked vectors below `v` have their irqfds, and no
    // others are unmasked by hook.
    ghost predicate FiredBelow(s0: Live, v: nat)
      requires Sized() && v <= nr
      reads this
    {
      var Q := HotBelow(vector, Stop(num, nvqsWithNotifiers), masked, v);
      && Attached(irqfds, s0.i, TableOf(vectorIrqfd), vector, if hasMask then {} else Q)
      && |hookMasked| == |s0.h| && forall q :: 0 <= q < |s0.h| && q !in Q && s0.h[q] ==> hookMasked[q]
    }

    method UndoMsixSet(n: nat, ghost s0: Live)
      requires Sized() && n <= nr && (hasMask || vectorIrqfd.Some?) && FiredBelow(s0, n) && (!hasMask ==> hookMasked == s0.h)
      modifies `irqfds, `hookMasked, `faulted
      ensures Sized() && irqfds == s0.i && faulted == old(faulted) && HooksKept(s0.h, hookMasked)
    {
      var v := n;
      while v > 0
        invariant 0 <= v <= n && Sized() && faulted == old(faulted)
        invariant FiredBelow(s0, v) && (!hasMask ==> hookMasked == s0.h)
      {
        v := v - 1;
        UndoMsixTurn(v, s0);
      }
      assert HotBelow(vector, Stop(num, nvqsWithNotifiers), masked, 0) == {};
    }

    method UndoMsixTurn(v: nat, ghost s0: Live)
      requires Sized() && v < nr && (hasMask || vectorIrqfd.Some?) && FiredBelow(s0, v + 1) && (!hasMask ==> hookMasked == s0.h)
      modifies `irqfds, `hookMasked, `faulted
      ensures Sized() && FiredBelow(s0, v) && faulted == old(faulted) && (!hasMask ==> hookMasked == s0.h)
    {
      ghost var s := Now();
      if !masked[v] {
        VectorMask(v);
      }
      FiredLess(Geo(), vector, Stop(num, nvqsWithNotifiers), masked, s0.i, s, v, Now());
      HotBelowMore(vector, Stop(num, nvqsWithNotifiers), masked, v);
    }

    ghost predicate UnfiredHere(s0: Live, v: nat)
      requires Sized() && v <= nr
      reads this
    {
      Unfired(Geo(), vector, Stop(num, nvqsWithNotifiers), masked, s0, Now(), v)
    }

    // Masks every vector that is not masked.
    method MsixUnsetVectorNotifiers()
      requires Sized() && (hasMask || vectorIrqfd.Some?)
      modifies `irqfds, `hookMasked, `faulted, `callbacks
      ensures Sized() && !callbacks && UnfiredHere(old(Now()), nr)
    {
      ghost var s0 := Now();
      assert HotBelow(vector, Stop(num, nvqsWithNotifiers), masked, 0) == {};
      var v := 0;
      while v < nr
        invariant v <= nr && Sized()
        invariant UnfiredHere(s0, v)
      {
        MsixUnsetTurn(v, s0);
        v := v + 1;
      }
      callbacks := false;
    }

    method MsixUnsetTurn(v: nat, ghost s0: Live)
      requires Sized() && v < nr && (hasMask || vectorIrqfd.Some?)
      requires UnfiredHere(s0, v)
      modifies `irqfds, `hookMasked, `faulted
      ensures Sized() && UnfiredHere(s0, v + 1)
    {
      ghost var s := Now();
      if !masked[v] {
        VectorMask(v);
      }
      UnfiredMore(Geo(), vector, Stop(num, nvqsWithNotifiers), masked, s0, s, v, Now());
    }

    // ----- guest notifiers -----

    method SetGuestNotifier(n: nat, assign: bool, withIrqfd: bool) returns (r: int)
      requires Sized() && n < |guestNotifier| && n < |guestHandler| && n < VIRTIO_PCI_QUEUE_MAX
      modifies `guestNotifier, `guestHandler, `hookMasked, `failedInits
      ensures !assign ==> r == 0
      ensures r < 0 ==> guestNotifier == old(guestNotifier) && guestHandler == old(guestHandler) && hookMasked == old(hookMasked)
      ensures r >= 0 ==>
        && guestNotifier == old(guestNotifier)[n := old(guestNotifier)[n] + if assign then 1 else -1]
        && guestHandler == old(guestHandler)[n := assign && !withIrqfd]
        && hookMasked == if !msixEnabled && hasMask then old(hookMasked)[n := !assign] else old(hookMasked)
      ensures failedInits == old(failedInits) + if r < 0 then 1 else 0
    {
      if assign {
        var fail: bool := *;
        if fail {
          failedInits := failedInits + 1;
          return -1;
        }
        guestNotifier := guestNotifier[n := guestNotifier[n] + 1];
        guestHandler := guestHandler[n := !withIrqfd];
      } else {
        guestHandler := guestHandler[n := false];
        guestNotifier := guestNotifier[n := guestNotifier[n] - 1];
      }
      if !msixEnabled && hasMask {
        hookMasked := hookMasked[n := !assign];
      }
      return 0;
    }

    ghost predicate GuestHere(k: nat, withIrqfd: bool)
      reads this
    {
      |guestNotifier| == |guestHandler| == |hookMasked| == VIRTIO_PCI_QUEUE_MAX && GuestUpTo(Snap(), k, withIrqfd)
    }

    // Without MSI-X the class has been told `b` of the first `k` queues.
    ghost predicate HooksEach(h0: seq<bool>, k: nat, b: bool)
      reads this
    {
      && |hookMasked| == |h0|
      && forall q :: 0 <= q < |h0| ==> hookMasked[q] == if !msixEnabled && hasMask && q < k then b else h0[q]
    }

    // The `assign_error` tail: undoes queues 0 .. n-1.
    method UndoGuestNotifiers(n: nat, withIrqfd: bool)
      requires Sized() && n <= VIRTIO_PCI_QUEUE_MAX && GuestHere(n, withIrqfd)
      modifies `guestNotifier, `guestHandler, `hookMasked, `failedInits
      ensures GuestHere(0, withIrqfd)
      ensures failedInits == old(failedInits)
      ensures HooksEach(old(hookMasked), n, true)
    {
      var q := n;
      while q > 0
        invariant 0 <= q <= n && Sized() && GuestHere(q, withIrqfd) && failedInits == old(failedInits)
        invariant forall j :: 0 <= j < |hookMasked| ==> hookMasked[j] == if !msixEnabled && hasMask && q <= j < n then true else old(hookMasked)[j]
      {
        q := q - 1;
        var r := SetGuestNotifier(q, false, withIrqfd);
      }
    }

    // The per-queue loop when assigning; `n` is where it stopped.
    method AssignEach(nvqs: nat, withIrqfd: bool) returns (r: int, n: nat)
      requires Sized() && nvqs <= VIRTIO_PCI_QUEUE_MAX && GuestHere(0, withIrqfd)
      modifies `guestNotifier, `guestHandler, `hookMasked, `failedInits
      ensures n <= VIRTIO_PCI_QUEUE_MAX && GuestHere(n, withIrqfd)
      ensures r >= 0 ==> n == Stop(num, nvqs)
      ensures failedInits == old(failedInits) + if r < 0 then 1 else 0
      ensures HooksEach(old(hookMasked), n, false)
    {
      r, n := 0, 0;
      while n < nvqs
        invariant n <= Stop(num, nvqs) && Sized() && GuestHere(n, withIrqfd)
        invariant r >= 0 && failedInits == old(failedInits) && HooksEach(old(hookMasked), n, false)
      {
        if num[n] == 0 {
          break;
        }
        r := SetGuestNotifier(n, true, withIrqfd);
        if r < 0 {
          return;
        }
        n := n + 1;
      }
    }

    // The per-queue loop when deassigning.
    method DeassignEach(nvqs: nat, withIrqfd: bool, ghost wasIrqfd: bool)
      requires Sized() && nvqs <= VIRTIO_PCI_QUEUE_MAX && GuestHere(Stop(num, nvqs), wasIrqfd)
      modifies `guestNotifier, `guestHandler, `hookMasked, `failedInits
      ensures GuestHere(0, withIrqfd)
      ensures failedInits == old(failedInits)
      ensures HooksEach(old(hookMasked), Stop(num, nvqs), true)
    {
      var n := 0;
      ghost var k := Stop(num, nvqs);
      while n < nvqs
        invariant n <= k && Sized() && |guestNotifier| == |guestHandler| == VIRTIO_PCI_QUEUE_MAX && failedInits == old(failedInits)
        invariant HooksEach(old(hookMasked), n, true)
        invariant forall q :: 0 <= q < |guestNotifier| ==> guestNotifier[q] == if n <= q < k then 1 else 0
        invariant forall q :: 0 <= q < |guestHandler| ==> guestHandler[q] == (n <= q < k && !wasIrqfd)
      {
        if num[n] == 0 {
          break;
        }
        var r := SetGuestNotifier(n, false, withIrqfd);
        n := n + 1;
      }
    }

    // Assigning either succeeds for every queue or leaves nothing assigned, whatever
    // failed. What deassigning comes to is DeassignResult.
    method SetGuestNotifiers(nvqsArg: nat, assign: bool, ghost wasIrqfd: bool, ghost bound: seq<nat>) returns (r: int)
      requires Shaped() && |bound| == VIRTIO_PCI_QUEUE_MAX
      requires assign ==> Unassigned(Geo(), Snap())
      requires !assign ==> Taken(Geo(), bound, Snap(), wasIrqfd)
      modifies `nvqsWithNotifiers, `vectorIrqfd, `guestNotifier, `guestHandler, `hookMasked, `routes, `irqfds, `callbacks, `faulted, `refused, `failedInits
      ensures Shaped()
      ensures assign ==> faulted == old(faulted) && nvqsWithNotifiers == Min(nvqsArg, VIRTIO_PCI_QUEUE_MAX)
      ensures assign ==> AssignResult(Geo(), vector, old(Snap()), old(hookMasked), msixEnabled && viaIrqfd, r >= 0, Snap(), hookMasked)
      ensures !assign && Min(nvqsArg, VIRTIO_PCI_QUEUE_MAX) == old(nvqsWithNotifiers) ==>
        r == 0 && DeassignResult(Geo(), vector, old(Snap()), old(hookMasked), old(faulted), wasIrqfd, bound, Snap(), hookMasked, faulted)
      ensures !assign && Min(nvqsArg, VIRTIO_PCI_QUEUE_MAX) != old(nvqsWithNotifiers) ==> faulted
      ensures refused + failedInits == old(refused + failedInits) + if assign && r < 0 then 1 else 0
      ensures assign && failedInits > old(failedInits) ==> vectorIrqfd == old(vectorIrqfd)
      ensures assign && msixEnabled && viaIrqfd && failedInits == old(failedInits) ==> vectorIrqfd.Some?
    {
      var withIrqfd := msixEnabled && viaIrqfd;
      var nvqs := Min(nvqsArg, VIRTIO_PCI_QUEUE_MAX);
      if !(assign || nvqs == nvqsWithNotifiers) {
        faulted := true;
        return -1;
      }
      nvqsWithNotifiers := nvqs;
      if assign {
        r := Assign(nvqs, withIrqfd);
      } else {
        Deassign(nvqs, withIrqfd, wasIrqfd, bound);
        r := 0;
      }
    }

    method Deassign(nvqs: nat, withIrqfd: bool, ghost wasIrqfd: bool, ghost bound: seq<nat>)
      requires Shaped() && nvqs == nvqsWithNotifiers && |bound| == VIRTIO_PCI_QUEUE_MAX
      requires Taken(Geo(), bound, Snap(), wasIrqfd)
      modifies `vectorIrqfd, `guestNotifier, `guestHandler, `hookMasked, `routes, `irqfds, `callbacks, `faulted, `failedInits
      ensures Shaped() && failedInits == old(failedInits)
      ensures DeassignResult(Geo(), vector, old(Snap()), old(hookMasked), old(faulted), wasIrqfd, bound, Snap(), hookMasked, faulted)
    {
      if vectorIrqfd.Some? || hasMask {
        UnbindVectors(nvqs, wasIrqfd, bound);
      }
      assert GuestHere(Stop(num, nvqs), wasIrqfd);
      ghost var n, f := Snap(), faulted;
      DeassignEach(nvqs, withIrqfd, wasIrqfd);
      assert VectorsGone(Geo(), vector, old(Snap()), old(faulted), wasIrqfd, bound, n, f);
    }

    // The first half of deassigning: vector notifiers, then the irqfd table.
    method UnbindVectors(nvqs: nat, ghost wasIrqfd: bool, ghost bound: seq<nat>)
      requires Shaped() && nvqs == nvqsWithNotifiers && (vectorIrqfd.Some? || hasMask) && |bound| == VIRTIO_PCI_QUEUE_MAX
      requires if wasIrqfd then TableBound(Geo(), bound, Snap(), Stop(num, nvqs)) else NoVectors(Geo(), Snap())
      modifies `vectorIrqfd, `hookMasked, `routes, `irqfds, `callbacks, `faulted
      ensures Sized() && VectorsGone(Geo(), vector, old(Snap()), old(faulted), wasIrqfd, bound, Snap(), faulted)
      ensures FiredHooks(old(hookMasked), true)
    {
      ghost var g, vec, k, n, s0 := Geo(), vector, Stop(num, nvqs), Snap(), Now();
      HotCases(g, vec, k, masked);
      MsixUnsetVectorNotifiers();
      ghost var s2 := Now();
      if vectorIrqfd.Some? {
        ghost var s1 := Now();
        VectorRelease(nvqs, bound);
        s2 := Now();
        if wasIrqfd {
          UnbindResult(g, bound, vec, k, masked, s0, s1, s2);
        }
        vectorIrqfd := None;
      }
      if wasIrqfd {
        UnboundAreGone(g, vec, n, s0.h, s0.f, bound, Snap(), s2);
      }
    }

    // The second half of assigning: the irqfd table, then the vector notifiers.
    method BindVectors(nvqs: nat, withIrqfd: bool) returns (r: int)
      requires Sized() && nvqs == nvqsWithNotifiers && (withIrqfd || hasMask)
      requires NoVectors(Geo(), Snap()) && !callbacks
      modifies `vectorIrqfd, `hookMasked, `routes, `irqfds, `callbacks, `faulted, `refused
      ensures Sized() && faulted == old(faulted) && callbacks == (r >= 0)
      ensures !withIrqfd ==> vectorIrqfd == old(vectorIrqfd)
      ensures if r >= 0 && withIrqfd then VectorsBound(Geo(), vector, Snap(), Stop(num, nvqs)) else NoVectors(Geo(), Snap())
      ensures refused == old(refused) + if r < 0 then 1 else 0
      ensures if r >= 0 then FiredHooks(old(hookMasked), false)
              else HooksKept(old(hookMasked), hookMasked)
      ensures withIrqfd ==> vectorIrqfd.Some?
    {
      if withIrqfd {
        r := BindWithIrqfds(nvqs);
      } else {
        HotCases(Geo(), vector, Stop(num, nvqs), masked);
        r := MsixSetVectorNotifiers();
      }
    }

    // With irqfds: the table and its users, then the vector notifiers, or neither.
    method BindWithIrqfds(nvqs: nat) returns (r: int)
      requires Sized() && nvqs == nvqsWithNotifiers && NoVectors(Geo(), Snap()) && !callbacks
      modifies `vectorIrqfd, `hookMasked, `routes, `irqfds, `callbacks, `faulted, `refused
      ensures Sized() && faulted == old(faulted) && callbacks == (r >= 0)
      ensures if r >= 0 then VectorsBound(Geo(), vector, Snap(), Stop(num, nvqs)) else NoVectors(Geo(), Snap())
      ensures refused == old(refused) + if r < 0 then 1 else 0
      ensures if r >= 0 then FiredHooks(old(hookMasked), false)
              else HooksKept(old(hookMasked), hookMasked)
      ensures vectorIrqfd.Some?
    {
      ghost var s0 := Live(seq(nr, _ => VirtIOIRQFD(0, 0)), others, left, hookMasked, faulted);
      r := BindAll(nvqs, s0);
      if r < 0 {
        return;
      }
      ghost var s1 := Now();
      r := MsixSetVectorNotifiers();
      if r < 0 {
        UnbindAll(nvqs, s0.(h := hookMasked));
      } else {
        FiredIsBound(Geo(), vector, Stop(num, nvqs), s0, s1, Snap(), Now());
      }
    }

    // Takes every vector, on a new and empty table.
    method BindAll(nvqs: nat, ghost s0: Live) returns (r: int)
      requires Sized() && nvqs == nvqsWithNotifiers && NoVectors(Geo(), Snap())
      requires s0 == Live(seq(nr, _ => VirtIOIRQFD(0, 0)), others, left, hookMasked, faulted)
      modifies `vectorIrqfd, `routes, `irqfds, `faulted, `refused
      ensures Sized() && faulted == old(faulted) && vectorIrqfd.Some?
      ensures if r >= 0 then Holding(Geo(), vector, s0, Now(), Stop(num, nvqs)) else NoVectors(Geo(), Snap())
      ensures refused == old(refused) + if r < 0 then 1 else 0
    {
      vectorIrqfd := Some(seq(nr, _ => VirtIOIRQFD(0, 0)));
      assert Own(s0.t) == {};
      assert Now() == s0;
      r := VectorUse(nvqs);
    }

    // Gives back what a successful VectorUse on an empty table took.
    method UnbindAll(nvqs: nat, ghost s0: Live)
      requires Sized() && nvqs == nvqsWithNotifiers && vectorIrqfd.Some?
      requires s0 == Live(seq(nr, _ => VirtIOIRQFD(0, 0)), others, left, hookMasked, faulted)
      requires Holding(Geo(), vector, s0, Now(), Stop(num, nvqs))
      modifies `vectorIrqfd, `routes, `irqfds, `faulted
      ensures Sized() && faulted == old(faulted) && vectorIrqfd.Some?
      ensures NoVectors(Geo(), Snap())
    {
      ghost var g, vec, k, s := Geo(), vector, Stop(num, nvqs), Now();
      assert Own(s0.t) == {};
      HoldingReleasable(g, vec, s0, s, k);
      VectorRelease(nvqs, vector);
      UseReleaseRoundTrip(g, vec, s0, k, s, Now());
    }

    method Assign(nvqs: nat, withIrqfd: bool) returns (r: int)
      requires Shaped() && nvqs == nvqsWithNotifiers && withIrqfd == (msixEnabled && viaIrqfd)
      requires Unassigned(Geo(), Snap())
      modifies `vectorIrqfd, `guestNotifier, `guestHandler, `hookMasked, `routes, `irqfds, `callbacks, `faulted, `refused, `failedInits
      ensures Shaped() && faulted == old(faulted)
      ensures AssignResult(Geo(), vector, old(Snap()), old(hookMasked), withIrqfd, r >= 0, Snap(), hookMasked)
      ensures refused + failedInits == old(refused + failedInits) + if r < 0 then 1 else 0
      ensures failedInits > old(failedInits) ==> vectorIrqfd == old(vectorIrqfd)
      ensures withIrqfd && failedInits == old(failedInits) ==> vectorIrqfd.Some?
    {
      var n;
      assert GuestHere(0, withIrqfd);
      r, n := AssignEach(nvqs, withIrqfd);
      if r >= 0 && (withIrqfd || hasMask) {
        r := BindVectors(nvqs, withIrqfd);
      }
      if r < 0 {
        UndoGuestNotifiers(n, withIrqfd);
      }
    }

    // ----- what the guest does to the MSI-X table -----

    method GuestMask(v: nat, ghost m: Mode)
      requires Consistent(Geo(), vector, Snap(), m) && |hookMasked| == VIRTIO_PCI_QUEUE_MAX && v < nr
      modifies `masked, `irqfds, `hookMasked, `faulted
      ensures MaskStep(Geo(), vector, old(Snap()), old(faulted), old(hookMasked), Snap(), faulted, hookMasked, v)
      ensures |hookMasked| == VIRTIO_PCI_QUEUE_MAX && faulted == (old(faulted) || MaskFaults(Geo(), vector, old(Snap()), v))
      ensures Consistent(Geo(), vector, Snap(), if MaskFaults(Geo(), vector, old(Snap()), v) then Broken else m)
    {
      if !masked[v] {
        masked := masked[v := true];
        if callbacks {
          VectorMask(v);
        }
      }
      assert old(masked)[v] ==> masked == old(masked)[v := true];
      MaskKeepsConsistent(Geo(), vector, old(Snap()), m, old(faulted), old(hookMasked), Snap(), faulted, hookMasked, v);
    }

    method GuestUnmask(v: nat, ghost m: Mode) returns (ret: int)
      requires Consistent(Geo(), vector, Snap(), m) && |hookMasked| == VIRTIO_PCI_QUEUE_MAX && v < nr && msixEnabled
      modifies `masked, `irqfds, `hookMasked, `faulted, `refused
      ensures UnmaskStep(Geo(), vector, old(Snap()), old(hookMasked), ret >= 0, Snap(), hookMasked, v)
      ensures masked == if ret >= 0 then old(masked)[v := false] else old(masked)
      ensures Consistent(Geo(), vector, Snap(), m) && faulted == old(faulted) && |hookMasked| == VIRTIO_PCI_QUEUE_MAX
      ensures refused == old(refused) + if ret < 0 then 1 else 0
    {
      ret := 0;
      if masked[v] {
        if callbacks {
          ghost var n;
          ret, n := VectorUnmask(v);
        }
        if ret >= 0 {
          masked := masked[v := false];
        }
      }
      assert !old(masked)[v] ==> masked == old(masked)[v := false];
      UnmaskKeepsConsistent(Geo(), vector, old(Snap()), m, old(hookMasked), ret >= 0, Snap(), hookMasked, v);
    }

    // Disabling MSI-X masks every vector at once, without any callback. The irqfds stay as
    // they are; without a mask hook nothing will remove them any more.
    method GuestDisableMsix(ghost m: Mode)
      requires Consistent(Geo(), vector, Snap(), m)
      modifies `msixEnabled, `masked
      ensures !msixEnabled && masked == seq(nr, _ => true)
      ensures Snap() == old(Snap()).(msixEnabled := false, masked := masked)
      ensures Consistent(Silenced(Geo(), old(Snap()), m), vector, Snap(), m)
    {
      ghost var n := Snap();
      masked := seq(nr, _ => true);
      msixEnabled := false;
      SilentMaskKeepsConsistent(Geo(), vector, n, m, Snap());
    }

    // ----- MSI-X use counts -----

    ghost function Slot(): Plug { Plug(nr, num, useIoeventfd) }

    ghost function Regs(): Registers
      reads this
    {
      Registers(configVector, vector, queueSel, status, used, busMaster, busMasterBug)
    }

    ghost function Io(): Ioeventfd
      reads this
    {
      Ioeventfd(ioeventfdStarted, ioeventfdDisabled, hostNotifier, hostHandler, hostDoubled)
    }

    ghost function Dev(): Device
      reads this
    {
      Device(Regs(), Io())
    }

    ghost predicate DeviceShaped()
      reads this
    {
      RegisterShape(Slot(), Regs()) && |hostNotifier| == |hostHandler| == VIRTIO_PCI_QUEUE_MAX
    }

    method MsixVectorUse(v: nat) returns (ret: int)
      requires |used| == nr
      modifies `used
      ensures used == UseVector(old(used), v)
      ensures ret == if v < nr then 0 else -22
    {
      if v >= nr {
        return -22;
      }
      used := used[v := used[v] + 1];
      return 0;
    }

    method MsixVectorUnuse(v: nat)
      requires |used| == nr
      modifies `used
      ensures used == UnuseVector(old(used), v)
    {
      if v >= nr || used[v] == 0 {
        return;
      }
      used := used[v := used[v] - 1];
    }

    method MsixUnuseAllVectors()
      requires |used| == nr
      modifies `used
      ensures used == Zeros(nr)
    {
      used := Zeros(nr);
    }

    method VirtioReset()
      modifies `configVector, `vector, `queueSel, `status
      ensures Regs() == ResetRegisters(old(Regs())).(used := old(used))
    {
      status := 0;
      queueSel := 0;
      configVector := VIRTIO_NO_VECTOR;
      vector := NoVectors64();
    }

    // ----- host notifiers -----

    method SetHostNotifierInternal(n: nat, assign: bool, setHandler: bool) returns (r: int)
      requires n < |hostNotifier| && n < |hostHandler|
      modifies `hostNotifier, `hostHandler, `hostDoubled, `failedInits
      ensures !assign ==> r >= 0
      ensures r < 0 ==> Io() == old(Io())
      ensures r >= 0 ==>
        && hostNotifier == old(hostNotifier)[n := old(hostNotifier)[n] + if assign then 1 else -1]
        && hostHandler == old(hostHandler)[n := assign && setHandler]
        && hostDoubled == (old(hostDoubled) || (if assign then old(hostNotifier)[n] > 0 else old(hostNotifier)[n] <= 0))
      ensures failedInits == old(failedInits) + if r < 0 then 1 else 0
    {
      if assign {
        var fail: bool := *;
        if fail {
          failedInits := failedInits + 1;
          return -1;
        }
        hostDoubled := hostDoubled || hostNotifier[n] > 0;
        hostNotifier := hostNotifier[n := hostNotifier[n] + 1];
        hostHandler := hostHandler[n := setHandler];
      } else {
        hostDoubled := hostDoubled || hostNotifier[n] <= 0;
        hostHandler := hostHandler[n := false];
        hostNotifier := hostNotifier[n := hostNotifier[n] - 1];
      }
      return 0;
    }

    // The first `n` queues have been started on top of `io0`.
    ghost predicate StartedUpTo(io0: Ioeventfd, n: nat)
      reads this
    {
      && hostNotifier == ShiftHost(num, io0.host, n, 1)
      && hostHandler == SetHandlers(num, io0.handler, n, true)
      && hostDoubled == (io0.doubled || SomeInit(num, io0.host, 0, n))
    }

    // Starts ioeventfd on every active queue, or on none.
    method StartIoeventfd() returns (ghost out: Outcome)
      requires DeviceShaped()
      modifies `ioeventfdStarted, `hostNotifier, `hostHandler, `hostDoubled, `failedInits
      ensures StartedIoeventfd(Slot(), old(Io()), out, Io())
      ensures failedInits == old(failedInits) + if out.FailsAt? then 1 else 0
      ensures Started(Slot(), old(Io()), out, Io())
    {
      out := Success;
      if !useIoeventfd || ioeventfdDisabled || ioeventfdStarted {
        return;
      }
      ghost var io0 := Io();
      var n := 0;
      while n < VIRTIO_PCI_QUEUE_MAX
        invariant n <= VIRTIO_PCI_QUEUE_MAX && ioeventfdStarted == old(ioeventfdStarted) && failedInits == old(failedInits)
        invariant StartedUpTo(io0, n)
      {
        var r := StartTurn(n, io0);
        if r < 0 {
          UndoStart(n, io0);
          ioeventfdStarted := false;
          return FailsAt(n);
        }
        n := n + 1;
      }
      ioeventfdStarted := true;
    }

    method StartTurn(n: nat, ghost io0: Ioeventfd) returns (r: int)
      requires |num| == |io0.host| == |io0.handler| == VIRTIO_PCI_QUEUE_MAX && n < VIRTIO_PCI_QUEUE_MAX
      requires StartedUpTo(io0, n)
      modifies `hostNotifier, `hostHandler, `hostDoubled, `failedInits
      ensures if r >= 0 then StartedUpTo(io0, n + 1) else StartedUpTo(io0, n) && Active(num, n)
      ensures failedInits == old(failedInits) + if r < 0 then 1 else 0
    {
      r := 0;
      SomeMore(num, io0.host, 0, n);
      if num[n] != 0 {
        r := SetHostNotifierInternal(n, true, true);
      }
    }

    // The `assign_error` tail of starting.
    method UndoStart(m: nat, ghost io0: Ioeventfd)
      requires |num| == |io0.host| == |io0.handler| == VIRTIO_PCI_QUEUE_MAX && m < VIRTIO_PCI_QUEUE_MAX
      requires StartedUpTo(io0, m)
      modifies `hostNotifier, `hostHandler, `hostDoubled, `failedInits
      ensures hostNotifier == io0.host && hostHandler == SetHandlers(num, io0.handler, m, false)
      ensures hostDoubled == (io0.doubled || SomeInit(num, io0.host, 0, m) || SomeUnder(num, io0.host, 0, m))
      ensures failedInits == old(failedInits)
    {
      var n := m;
      while n > 0
        invariant 0 <= n <= m && |hostHandler| == VIRTIO_PCI_QUEUE_MAX && failedInits == old(failedInits)
        invariant hostNotifier == ShiftHost(num, io0.host, n, 1)
        invariant forall q :: 0 <= q < |hostHandler| ==> hostHandler[q] == if q < m && Active(num, q) then q < n else io0.handler[q]
        invariant hostDoubled == (io0.doubled || SomeInit(num, io0.host, 0, m) || SomeUnder(num, io0.host, n, m))
      {
        n := n - 1;
        SomeMore(num, io0.host, n, m);
        if num[n] != 0 {
          var r := SetHostNotifierInternal(n, false, false);
        }
      }
    }

    method StopIoeventfdNow()
      requires DeviceShaped()
      modifies `ioeventfdStarted, `hostNotifier, `hostHandler, `hostDoubled, `failedInits
      ensures Io() == StopIoeventfd(Slot(), old(Io()))
      ensures DeviceShaped()
      ensures failedInits == old(failedInits)
      ensures Stopped(Slot(), old(Io()), Io())
    {
      if !ioeventfdStarted {
        return;
      }
      ghost var io0 := Io();
      var n := 0;
      while n < VIRTIO_PCI_QUEUE_MAX
        invariant n <= VIRTIO_PCI_QUEUE_MAX && ioeventfdStarted == old(ioeventfdStarted) && failedInits == old(failedInits)
        invariant StoppedUpTo(io0, n)
      {
        StopTurn(n, io0);
        n := n + 1;
      }
      ioeventfdStarted := false;
    }

    // The first `n` queues have been stopped.
    ghost predicate StoppedUpTo(io0: Ioeventfd, n: nat)
      reads this
    {
      && hostNotifier == ShiftHost(num, io0.host, n, -1)
      && hostHandler == SetHandlers(num, io0.handler, n, false)
      && hostDoubled == (io0.doubled || SomeBare(num, io0.host, 0, n))
    }

    method StopTurn(n: nat, ghost io0: Ioeventfd)
      requires |num| == |io0.host| == |io0.handler| == VIRTIO_PCI_QUEUE_MAX && n < VIRTIO_PCI_QUEUE_MAX
      requires StoppedUpTo(io0, n)
      modifies `hostNotifier, `hostHandler, `hostDoubled, `failedInits
      ensures StoppedUpTo(io0, n + 1)
      ensures failedInits == old(failedInits)
    {
      SomeMore(num, io0.host, 0, n);
      if num[n] != 0 {
        var r := SetHostNotifierInternal(n, false, false);
      }
    }

    method SetHostNotifier(n: nat, assign: bool) returns (r: int)
      requires DeviceShaped() && n < VIRTIO_PCI_QUEUE_MAX
      modifies `ioeventfdStarted, `ioeventfdDisabled, `hostNotifier, `hostHandler, `hostDoubled, `failedInits
      ensures SetHostNotifierStep(Slot(), old(Io()), Io(), n, assign, r >= 0)
      ensures failedInits == old(failedInits) + if r < 0 then 1 else 0
      ensures ioeventfdDisabled == assign && ioeventfdStarted == (old(ioeventfdStarted) && !assign) && (r >= 0 ==> !hostHandler[n])
      ensures forall q :: 0 <= q < |hostNotifier| ==>
        hostNotifier[q] == (old(hostNotifier)[q] - if assign && old(ioeventfdStarted) && Active(num, q) then 1 else 0)
                           + if q != n || r < 0 then 0 else if assign then 1 else -1
    {
      ioeventfdDisabled := assign;
      if assign {
        StopIoeventfdNow();
      }
      r := SetHostNotifierInternal(n, assign, false);
    }

    // ----- register window -----

    method IoportWrite(addr: nat, val: nat) returns (ghost out: Outcome)
      requires DeviceShaped()
      modifies `configVector, `vector, `queueSel, `status, `used, `busMasterBug, `ioeventfdStarted, `hostNotifier, `hostHandler, `hostDoubled, `failedInits
      ensures IoportStep(Slot(), old(Dev()), addr, val, out, Dev())
      ensures failedInits == old(failedInits) + if out.FailsAt? then 1 else 0
      ensures Written(Slot(), old(Dev()), addr, val, out, Dev())
    {
      out := Success;
      if addr == VIRTIO_PCI_QUEUE_PFN {
        if val == 0 {
          StopIoeventfdNow();
          VirtioReset();
          MsixUnuseAllVectors();
        }
      } else if addr == VIRTIO_PCI_QUEUE_SEL {
        if val < VIRTIO_PCI_QUEUE_MAX {
          queueSel := val;
        }
      } else if addr == VIRTIO_PCI_STATUS {
        out := WriteStatus(val);
      } else if addr == VIRTIO_MSI_CONFIG_VECTOR {
        MsixVectorUnuse(configVector);
        var ret := MsixVectorUse(val);
        configVector := if ret < 0 then VIRTIO_NO_VECTOR else val;
      } else if addr == VIRTIO_MSI_QUEUE_VECTOR {
        MsixVectorUnuse(if queueSel < VIRTIO_PCI_QUEUE_MAX then vector[queueSel] else VIRTIO_NO_VECTOR);
        var ret := MsixVectorUse(val);
        if queueSel < VIRTIO_PCI_QUEUE_MAX {
          vector := vector[queueSel := if ret < 0 then VIRTIO_NO_VECTOR else val];
        }
      }
      IoportStepWrites(Slot(), old(Dev()), addr, val, out, Dev());
    }

    // The status register.
    method WriteStatus(val: nat) returns (ghost out: Outcome)
      requires DeviceShaped()
      modifies `configVector, `vector, `queueSel, `status, `used, `busMasterBug, `ioeventfdStarted, `hostNotifier, `hostHandler, `hostDoubled, `failedInits
      ensures IoportStep(Slot(), old(Dev()), VIRTIO_PCI_STATUS, val, out, Dev())
      ensures failedInits == old(failedInits) + if out.FailsAt? then 1 else 0
    {
      out := Success;
      if !IsDriverOk(val) {
        StopIoeventfdNow();
      }
      status := val % 256;
      if IsDriverOk(val) {
        out := StartIoeventfd();
      }
      if status == 0 {
        VirtioReset();
        MsixUnuseAllVectors();
      }
      if IsDriverOk(val) && !busMaster {
        busMasterBug := true;
      }
    }

    method ConfigWrite(addr: nat, val: nat) returns (ghost out: Outcome)
      requires DeviceShaped()
      modifies `configVector, `vector, `queueSel, `status, `used, `busMasterBug, `ioeventfdStarted, `hostNotifier, `hostHandler, `hostDoubled, `failedInits
      ensures ConfigWriteStep(Slot(), msixEnabled, old(Dev()), addr, val, out, Dev())
      ensures failedInits == old(failedInits) + if out.FailsAt? then 1 else 0
      ensures if addr < (if msixEnabled then VIRTIO_PCI_CONFIG_MSI else VIRTIO_PCI_CONFIG_NOMSI) then Written(Slot(), old(Dev()), addr, val, out, Dev()) else Dev() == old(Dev())
      ensures !msixEnabled && addr >= VIRTIO_MSI_CONFIG_VECTOR ==> configVector == old(configVector) && vector == old(vector) && used == old(used)
    {
      out := Success;
      if addr < (if msixEnabled then VIRTIO_PCI_CONFIG_MSI else VIRTIO_PCI_CONFIG_NOMSI) {
        out := IoportWrite(addr, val);
      }
    }

    // The PCI configuration write has left bus mastering as `master`; `covers` says
    // whether it touched the command register.
    method WriteConfig(covers: bool, master: bool)
      requires DeviceShaped() && (!covers ==> master == busMaster)
      modifies `busMaster, `status, `ioeventfdStarted, `hostNotifier, `hostHandler, `hostDoubled, `failedInits
      ensures Dev() == if covers then CommandWritten(Slot(), old(Dev()), master) else old(Dev())
      ensures failedInits == old(failedInits)
      ensures if covers && !master && !old(busMasterBug) then Demastered(Slot(), old(Dev()), Dev())
              else busMaster == master && status == old(status) && Io() == old(Io())
    {
      busMaster := master;
      if covers && !busMaster && !busMasterBug {
        StopIoeventfdNow();
        status := ClearDriverOk(status);
      }
      CommandStops(Slot(), old(Dev()));
    }

    method VmstateChange(running: bool) returns (ghost out: Outcome)
      requires DeviceShaped()
      modifies `busMasterBug, `ioeventfdStarted, `hostNotifier, `hostHandler, `hostDoubled, `failedInits
      ensures VmstateStep(Slot(), old(Dev()), running, out, Dev())
      ensures failedInits == old(failedInits) + if out.FailsAt? then 1 else 0
      ensures if running then Started(Slot(), old(Io()), out, Io()) else Stopped(Slot(), old(Io()), Io())
      ensures busMasterBug == (old(busMasterBug) || (running && IsDriverOk(status) && !busMaster))
    {
      out := Success;
      if running {
        if IsDriverOk(status) && !busMaster {
          busMasterBug := true;
        }
        out := StartIoeventfd();
      } else {
        StopIoeventfdNow();
      }
    }

    method Reset()
      requires DeviceShaped()
      modifies `configVector, `vector, `queueSel, `status, `used, `busMasterBug, `ioeventfdStarted, `hostNotifier, `hostHandler, `hostDoubled, `failedInits
      ensures Dev() == DeviceReset(Slot(), old(Dev()))
      ensures failedInits == old(failedInits)
      ensures Stopped(Slot(), old(Io()), Io()) && Cleared(old(Regs()), Regs()) && !busMasterBug
    {
      StopIoeventfdNow();
      VirtioReset();
      MsixUnuseAllVectors();
      busMasterBug := false;
    }

    // ----- migration -----

    method SaveConfig(f: QEMUFile)
      modifies f
      ensures f.data == old(f.data) + MigrationSpec.SaveConfig(Slot(), Regs())
    {
      if nr > 0 {
        f.PutBe16(configVector);
      }
    }

    method SaveQueue(n: nat, f: QEMUFile)
      requires |vector| == VIRTIO_PCI_QUEUE_MAX
      modifies f
      ensures f.data == old(f.data) + MigrationSpec.SaveQueue(Slot(), Regs(), n)
    {
      if nr > 0 {
        f.PutBe16(if n < VIRTIO_PCI_QUEUE_MAX then vector[n] else VIRTIO_NO_VECTOR);
      }
    }

    // `loaded` is the outcome of loading the PCI configuration space.
    method LoadConfig(loaded: int, f: QEMUFile) returns (ret: int)
      requires |used| == nr
      modifies f, `used, `configVector
      ensures loaded != 0 ==> ret == loaded && Regs() == old(Regs()) && f.data == old(f.data)
      ensures loaded == 0 ==> Loaded(ret, Regs(), f.data) == MigrationSpec.LoadConfig(Slot(), old(Regs()), old(f.data))
    {
      if loaded != 0 {
        return loaded;
      }
      MsixUnuseAllVectors();
      if nr > 0 {
        configVector := f.GetBe16();
      } else {
        configVector := VIRTIO_NO_VECTOR;
      }
      if configVector != VIRTIO_NO_VECTOR {
        ret := MsixVectorUse(configVector);
        return;
      }
      return 0;
    }

    method LoadQueue(n: nat, f: QEMUFile) returns (ret: int)
      requires |used| == nr && |vector| == VIRTIO_PCI_QUEUE_MAX
      modifies f, `used, `vector
      ensures Loaded(ret, Regs(), f.data) == MigrationSpec.LoadQueue(Slot(), old(Regs()), n, old(f.data))
    {
      var v := VIRTIO_NO_VECTOR;
      if nr > 0 {
        v := f.GetBe16();
      }
      if n < VIRTIO_PCI_QUEUE_MAX {
        vector := vector[n := v];
      }
      if v != VIRTIO_NO_VECTOR {
        ret := MsixVectorUse(v);
        return;
      }
      return 0;
    }
  }
}

/** The proxy itself, driven by its callers: every operation on the object is a step of
    the machine of VirtioPciRuns, and so keeps its invariant. */
module VirtioPciSystem {
  import opened Options
  import opened NotifierSpec
  import opened RegisterSpec
  import opened MigrationSpec
  import opened DeviceRuns
  import opened VirtioPci
  import opened VirtioPciRuns

  /** A proxy and what its callers hold of it. */
  class PluggedDevice {
    const proxy: VirtIOPCIProxy
    ghost var mode: Mode
    ghost var held: set<nat>

    ghost function Conf(): Config { Config(proxy.nr, proxy.hasMask, proxy.viaIrqfd, proxy.num, proxy.useIoeventfd) }

    ghost function Beside(): Side
      reads this, proxy
    {
      Side(proxy.Dev(), held)
    }

    ghost function Here(): Machine
      reads this, proxy
    {
      Machine(proxy.Snap(), mode, proxy.hookMasked, proxy.faulted, Beyond(proxy.others, proxy.left), Beside())
    }

    // Use counts and host notifiers are in order, whatever the guest notifiers do.
    ghost predicate DeviceValid()
      reads this, proxy
    {
      SideShaped(Conf().Slot(), Beside()) && SideInv(Conf().Slot(), Beside())
    }

    ghost predicate Valid()
      reads this, proxy
    {
      Inv(Conf(), Here())
    }

    // A step of the device, beside which the guest notifiers stay as they are.
    twostate predicate DeviceStep(e: DeviceEvent)
      requires old(DeviceValid())
      reads this, proxy
    {
      && DeviceNext(Conf().Slot(), old(proxy.msixEnabled), old(Beside()), e, Beside())
      && Here() == old(Here()).(side := Beside(), mode := mode)
    }

    // The device has taken a step from `was`.
    ghost method Follow(was: Machine, e: DeviceEvent)
      requires SideShaped(Conf().Slot(), was.side) && SideInv(Conf().Slot(), was.side)
      requires DeviceNext(Conf().Slot(), was.notif.msixEnabled, was.side, e, Beside()) && Here() == was.(side := Beside())
      modifies `mode
      ensures DeviceValid() && Here() == was.(side := Beside(), mode := mode)
      ensures Inv(Conf(), was) ==> Valid() && Next(Conf(), was, OnDevice(e), Here())
    {
      DeviceNextKeeps(Conf().Slot(), was.notif.msixEnabled, was.side, e, Beside());
      if Inv(Conf(), was) {
        mode := AfterMove(proxy.Geo(), was.notif, mode, was.Vec(), proxy.vector);
        NextKeepsInv(Conf(), was, OnDevice(e), Here());
      }
    }

    constructor (p: VirtIOPCIProxy)
      requires Consistent(p.Geo(), p.vector, p.Snap(), Free) && p.vectorIrqfd == None && !p.faulted && p.Shaped()
      requires Accounting(p.Slot(), p.Regs()) && HostNotifiersOwned(p.Slot(), p.Dev(), {})
      ensures proxy == p && mode == Free && held == {} && Valid()
    {
      proxy, mode, held := p, Free, {};
    }

    // ----- register writes, reset, running and stopping -----

    method WriteRegister(addr: nat, val: nat) returns (ghost e: DeviceEvent, ghost out: Outcome)
      requires DeviceValid()
      modifies proxy, `mode
      ensures e == RegisterWrite(addr, val, out) && DeviceStep(e) && DeviceValid()
      ensures old(Valid()) ==> Valid() && Next(Conf(), old(Here()), OnDevice(e), Here())
    {
      ghost var was := Here();
      out := StepWrite(addr, val);
      e := RegisterWrite(addr, val, out);
      Follow(was, e);
    }

    method WriteCommand(master: bool) returns (ghost e: DeviceEvent)
      requires DeviceValid()
      modifies proxy, `mode
      ensures e == CommandWrite(master) && DeviceStep(e) && DeviceValid()
      ensures old(Valid()) ==> Valid() && Next(Conf(), old(Here()), OnDevice(e), Here())
    {
      ghost var was := Here();
      StepCommand(master);
      e := CommandWrite(master);
      Follow(was, e);
    }

    method StepCommand(master: bool)
      requires SideShaped(Conf().Slot(), Beside())
      modifies proxy
      ensures DeviceNext(Conf().Slot(), proxy.msixEnabled, old(Beside()), CommandWrite(master), Beside())
      ensures Here() == old(Here()).(side := Beside())
    {
      proxy.WriteConfig(true, master);
      assert proxy.Snap() == old(proxy.Snap());
    }

    method RunOrStop(running: bool) returns (ghost e: DeviceEvent, ghost out: Outcome)
      requires DeviceValid()
      modifies proxy, `mode
      ensures e == Vmstate(running, out) && DeviceStep(e) && DeviceValid()
      ensures old(Valid()) ==> Valid() && Next(Conf(), old(Here()), OnDevice(e), Here())
    {
      ghost var was := Here();
      out := StepRun(running);
      e := Vmstate(running, out);
      Follow(was, e);
    }

    method ResetAll() returns (ghost e: DeviceEvent)
      requires DeviceValid()
      modifies proxy, `mode
      ensures e == ResetDevice && DeviceStep(e) && DeviceValid()
      ensures old(Valid()) ==> Valid() && Next(Conf(), old(Here()), OnDevice(e), Here())
    {
      ghost var was := Here();
      StepReset();
      e := ResetDevice;
      Follow(was, e);
    }

    method StepWrite(addr: nat, val: nat) returns (ghost out: Outcome)
      requires SideShaped(Conf().Slot(), Beside())
      modifies proxy
      ensures DeviceNext(Conf().Slot(), proxy.msixEnabled, old(Beside()), RegisterWrite(addr, val, out), Beside())
      ensures Here() == old(Here()).(side := Beside())
    {
      out := WriteWindow(addr, val);
    }

    method WriteWindow(addr: nat, val: nat) returns (ghost out: Outcome)
      requires SideShaped(Conf().Slot(), Beside())
      modifies proxy
      ensures ConfigWriteStep(Conf().Slot(), proxy.msixEnabled, old(proxy.Dev()), addr, val, out, proxy.Dev())
      ensures proxy.Snap() == old(proxy.Snap()) && Here() == old(Here()).(side := Beside())
    {
      out := proxy.ConfigWrite(addr, val);
      assert proxy.Snap() == old(proxy.Snap());
    }

    method StepRun(running: bool) returns (ghost out: Outcome)
      requires SideShaped(Conf().Slot(), Beside())
      modifies proxy
      ensures DeviceNext(Conf().Slot(), proxy.msixEnabled, old(Beside()), Vmstate(running, out), Beside())
      ensures Here() == old(Here()).(side := Beside())
    {
      out := proxy.VmstateChange(running);
      assert proxy.Snap() == old(proxy.Snap());
    }

    method StepReset()
      requires SideShaped(Conf().Slot(), Beside())
      modifies proxy
      ensures DeviceNext(Conf().Slot(), proxy.msixEnabled, old(Beside()), ResetDevice, Beside())
      ensures Here() == old(Here()).(side := Beside())
    {
      proxy.Reset();
      assert proxy.Snap() == old(proxy.Snap());
    }

    // ----- host notifiers -----

    method TakeHostNotifier(n: nat) returns (r: int, ghost e: DeviceEvent)
      requires DeviceValid() && n < VIRTIO_PCI_QUEUE_MAX && n !in held
      modifies proxy, `held, `mode
      ensures e == HostNotifier(n, true, r >= 0) && DeviceStep(e) && DeviceValid()
      ensures proxy.failedInits == old(proxy.failedInits) + if r < 0 then 1 else 0
      ensures old(Valid()) ==> Valid() && Next(Conf(), old(Here()), OnDevice(e), Here())
    {
      ghost var was := Here();
      r := StepHostNotifier(n, true);
      held := if r < 0 then held else held + {n};
      e := HostNotifier(n, true, r >= 0);
      Follow(was, e);
    }

    method GiveHostNotifierBack(n: nat) returns (ghost e: DeviceEvent)
      requires DeviceValid() && n < VIRTIO_PCI_QUEUE_MAX && n in held
      modifies proxy, `held, `mode
      ensures e == HostNotifier(n, false, true) && DeviceStep(e) && DeviceValid()
      ensures old(Valid()) ==> Valid() && Next(Conf(), old(Here()), OnDevice(e), Here())
    {
      ghost var was := Here();
      var r := StepHostNotifier(n, false);
      held := held - {n};
      e := HostNotifier(n, false, true);
      Follow(was, e);
    }

    method StepHostNotifier(n: nat, assign: bool) returns (r: int)
      requires SideShaped(Conf().Slot(), Beside()) && n < VIRTIO_PCI_QUEUE_MAX
      modifies proxy
      ensures SetHostNotifierStep(Conf().Slot(), old(proxy.Io()), proxy.Io(), n, assign, r >= 0)
      ensures proxy.failedInits == old(proxy.failedInits) + if r < 0 then 1 else 0
      ensures proxy.Regs() == old(proxy.Regs()) && Here() == old(Here()).(side := Beside()) && (!assign ==> r >= 0)
    {
      r := proxy.SetHostNotifier(n, assign);
      assert proxy.Snap() == old(proxy.Snap()) && proxy.Regs() == old(proxy.Regs());
    }

    // ----- guest notifiers -----

    method AssignGuestNotifiers(nvqs: nat) returns (r: int)
      requires Valid() && mode == Free
      modifies proxy, `mode
      ensures Valid() && Next(Conf(), old(Here()), AssignGuests(nvqs, r >= 0), Here())
      ensures proxy.refused + proxy.failedInits == old(proxy.refused + proxy.failedInits) + if r < 0 then 1 else 0
    {
      ghost var was := Here();
      r := StepAssign(nvqs);
      mode := if r >= 0 then InUse(proxy.msixEnabled && proxy.viaIrqfd, proxy.vector, false) else Free;
      NextKeepsInv(Conf(), was, AssignGuests(nvqs, r >= 0), Here());
    }

    method StepAssign(nvqs: nat) returns (r: int)
      requires proxy.Shaped() && Unassigned(proxy.Geo(), proxy.Snap())
      modifies proxy
      ensures proxy.Shaped() && proxy.Dev() == old(proxy.Dev()) && proxy.Geo() == old(proxy.Geo()) && proxy.faulted == old(proxy.faulted)
      ensures proxy.masked == old(proxy.masked) && proxy.msixEnabled == old(proxy.msixEnabled)
      ensures proxy.nvqsWithNotifiers == Min(nvqs, VIRTIO_PCI_QUEUE_MAX)
      ensures proxy.refused + proxy.failedInits == old(proxy.refused + proxy.failedInits) + if r < 0 then 1 else 0
      ensures AssignResult(proxy.Geo(), proxy.vector, old(proxy.Snap()), old(proxy.hookMasked), proxy.msixEnabled && proxy.viaIrqfd, r >= 0,
                           proxy.Snap(), proxy.hookMasked)
    {
      ghost var regs, io := proxy.Regs(), proxy.Io();
      r := proxy.SetGuestNotifiers(nvqs, true, false, proxy.vector);
      assert proxy.Regs() == regs && proxy.Io() == io;
    }

    method DeassignGuestNotifiers()
      requires Valid() && mode.InUse?
      modifies proxy, `mode
      ensures Valid() && Next(Conf(), old(Here()), DeassignGuests, Here())
    {
      ghost var was := Here();
      StepDeassign();
      Settle(was);
      NextKeepsInv(Conf(), was, DeassignGuests, Here());
    }

    // The caller has nothing in use any more, and what is left behind is nobody's.
    ghost method Settle(was: Machine)
      requires Shaped(Conf(), was) && was.mode.InUse? && mode == was.mode
      requires Here() == was.(notif := Here().notif, hook := Here().hook, faulted := Here().faulted) && proxy.Shaped()
      requires proxy.masked == was.notif.masked && proxy.msixEnabled == was.notif.msixEnabled
      requires DeassignResult(proxy.Geo(), proxy.vector, was.notif, was.hook, was.faulted, mode.withIrqfd, mode.bound, proxy.Snap(), proxy.hookMasked, proxy.faulted)
      modifies `mode, proxy`others, proxy`left
      ensures DeassignedGuests(Conf(), was, Here())
    {
      if proxy.faulted {
        mode := Broken;
      } else {
        mode, proxy.others, proxy.left := Free, proxy.routes, proxy.irqfds;
      }
    }

    method StepDeassign()
      requires proxy.Shaped() && mode.InUse? && |mode.bound| == VIRTIO_PCI_QUEUE_MAX
      requires Taken(proxy.Geo(), mode.bound, proxy.Snap(), mode.withIrqfd)
      modifies proxy`nvqsWithNotifiers, proxy`vectorIrqfd, proxy`guestNotifier, proxy`guestHandler, proxy`hookMasked,
        proxy`routes, proxy`irqfds, proxy`callbacks, proxy`faulted, proxy`refused, proxy`failedInits
      ensures proxy.Shaped() && proxy.Dev() == old(proxy.Dev()) && proxy.Geo() == old(proxy.Geo())
      ensures DeassignResult(proxy.Geo(), proxy.vector, old(proxy.Snap()), old(proxy.hookMasked), old(proxy.faulted), mode.withIrqfd, mode.bound,
                             proxy.Snap(), proxy.hookMasked, proxy.faulted)
    {
      CallDeassign();
    }

    method CallDeassign()
      requires proxy.Shaped() && mode.InUse? && |mode.bound| == VIRTIO_PCI_QUEUE_MAX
      requires Taken(proxy.Geo(), mode.bound, proxy.Snap(), mode.withIrqfd)
      modifies proxy`nvqsWithNotifiers, proxy`vectorIrqfd, proxy`guestNotifier, proxy`guestHandler, proxy`hookMasked,
        proxy`routes, proxy`irqfds, proxy`callbacks, proxy`faulted, proxy`refused, proxy`failedInits
      ensures proxy.Shaped()
      ensures DeassignResult(proxy.Geo(), proxy.vector, old(proxy.Snap()), old(proxy.hookMasked), old(proxy.faulted), mode.withIrqfd, mode.bound,
                             proxy.Snap(), proxy.hookMasked, proxy.faulted)
    {
      var r := proxy.SetGuestNotifiers(proxy.nvqsWithNotifiers, false, mode.withIrqfd, mode.bound);
    }

    // ----- the MSI-X table -----

    method Mask(v: nat)
      requires Valid() && v < proxy.nr
      modifies proxy, `mode
      ensures Valid() && Next(Conf(), old(Here()), MaskVector(v), Here())
    {
      ghost var was := Here();
      StepMask(v);
      mode := if proxy.faulted then Broken else mode;
      NextKeepsInv(Conf(), was, MaskVector(v), Here());
    }

    method StepMask(v: nat)
      requires Consistent(proxy.Geo(), proxy.vector, proxy.Snap(), mode) && |proxy.hookMasked| == VIRTIO_PCI_QUEUE_MAX && v < proxy.nr
      modifies proxy
      ensures MaskStep(old(proxy.Geo()), old(proxy.vector), old(proxy.Snap()), old(proxy.faulted), old(proxy.hookMasked),
                       proxy.Snap(), proxy.faulted, proxy.hookMasked, v)
      ensures Here() == old(Here()).(notif := proxy.Snap(), hook := proxy.hookMasked, faulted := proxy.faulted)
      ensures |proxy.hookMasked| == VIRTIO_PCI_QUEUE_MAX
    {
      ghost var regs, io := proxy.Regs(), proxy.Io();
      proxy.GuestMask(v, mode);
      assert proxy.Regs() == regs && proxy.Io() == io;
    }

    method Unmask(v: nat) returns (ret: int)
      requires Valid() && v < proxy.nr && proxy.msixEnabled
      modifies proxy
      ensures Valid() && Next(Conf(), old(Here()), UnmaskVector(v, ret >= 0), Here())
      ensures proxy.refused == old(proxy.refused) + if ret < 0 then 1 else 0
    {
      ghost var was := Here();
      ret := StepUnmask(v);
      NextKeepsInv(Conf(), was, UnmaskVector(v, ret >= 0), Here());
    }

    method StepUnmask(v: nat) returns (ret: int)
      requires Consistent(proxy.Geo(), proxy.vector, proxy.Snap(), mode) && |proxy.hookMasked| == VIRTIO_PCI_QUEUE_MAX
      requires v < proxy.nr && proxy.msixEnabled
      modifies proxy
      ensures UnmaskStep(old(proxy.Geo()), old(proxy.vector), old(proxy.Snap()), old(proxy.hookMasked), ret >= 0,
                         proxy.Snap(), proxy.hookMasked, v)
      ensures Here() == old(Here()).(notif := proxy.Snap(), hook := proxy.hookMasked)
      ensures proxy.refused == old(proxy.refused) + if ret < 0 then 1 else 0
      ensures |proxy.hookMasked| == VIRTIO_PCI_QUEUE_MAX
    {
      ghost var regs, io := proxy.Regs(), proxy.Io();
      ret := proxy.GuestUnmask(v, mode);
      assert proxy.Regs() == regs && proxy.Io() == io;
    }

    method EnableMsixTable()
      requires Valid() && proxy.nr > 0
      modifies proxy
      ensures Valid() && Next(Conf(), old(Here()), EnableMsix, Here())
    {
      ghost var was := Here();
      proxy.msixEnabled := true;
      NextKeepsInv(Conf(), was, EnableMsix, Here());
    }

    // No callback runs; what the class without mask hook loses hold of counts as left behind.
    method DisableMsixTable()
      requires Valid()
      modifies proxy
      ensures Valid() && Next(Conf(), old(Here()), DisableMsix, Here())
      ensures proxy.faulted == old(proxy.faulted) && proxy.irqfds == old(proxy.irqfds)
    {
      ghost var was := Here();
      StepDisable();
      NextKeepsInv(Conf(), was, DisableMsix, Here());
    }

    method StepDisable()
      requires Shaped(Conf(), Here()) && Consistent(proxy.Geo(), proxy.vector, proxy.Snap(), mode)
      modifies proxy
      ensures Here() == SwitchedOff(Conf(), old(Here())) && |proxy.hookMasked| == old(|proxy.hookMasked|)
    {
      ghost var regs, io := proxy.Regs(), proxy.Io();
      proxy.GuestDisableMsix(mode);
      assert proxy.Regs() == regs && proxy.Io() == io;
      proxy.left := Silenced(proxy.Geo(), old(proxy.Snap()), mode).left;
    }

    // Without a mask hook and with irqfds in step, disabling MSI-X and then deassigning leaves
    // the irqfds of exactly the queues whose vectors were unmasked: nothing more if and only
    // if there is none. It faults if and only if some vector has more queues than were bound
    // with it.
    method DisableThenDeassign()
      requires Valid() && mode.InUse? && mode.withIrqfd && !mode.adrift && !proxy.hasMask
      modifies proxy, `mode
      ensures Valid() && (proxy.faulted <==> old(Crowded(mode.bound, proxy.vector, Stop(proxy.num, proxy.nvqsWithNotifiers), proxy.nr)))
      ensures !proxy.faulted ==>
        && mode == Free && proxy.irqfds == old(proxy.irqfds)
        && proxy.routes == old(proxy.others + Shed(proxy.vectorIrqfd.value, proxy.vector, Stop(proxy.num, proxy.nvqsWithNotifiers)))
        && (forall q: nat :: q in proxy.irqfds <==> q in old(proxy.left) || old(UnmaskedQueue(q)))
        && (proxy.irqfds == old(proxy.left) <==> forall q: nat :: !old(UnmaskedQueue(q)))
    {
      ghost var was := Here();
      DisableMsixTable();
      DisableLeavesExactly(Conf(), was, Here());
      ghost var off := Here();
      DeassignGuestNotifiers();
      SilentDeassign(Conf(), off, Here());
      assert forall q: nat :: old(UnmaskedQueue(q)) <==> q < Stop(Conf().num, was.notif.nvqs) && was.Vec()[q] < proxy.nr && !was.notif.masked[was.Vec()[q]];
    }

    ghost predicate UnmaskedQueue(q: nat)
      requires proxy.Shaped()
      reads proxy
    {
      q < Stop(proxy.num, proxy.nvqsWithNotifiers) && proxy.vector[q] < proxy.nr && !proxy.masked[proxy.vector[q]]
    }

    // ----- migration -----

    // The virtio core saves the configuration vector and the first `k` queues.
    method SaveVectors(k: nat, f: QEMUFile)
      requires DeviceValid() && k <= VIRTIO_PCI_QUEUE_MAX
      modifies f
      ensures f.data == old(f.data) + Save(Conf().Slot(), proxy.Regs(), k)
    {
      proxy.SaveConfig(f);
      ghost var head := f.data;
      for n := 0 to k
        invariant f.data == head + SaveQueues(Conf().Slot(), proxy.Regs(), n)
      {
        proxy.SaveQueue(n, f);
      }
    }

    // And loads them in the same order, up to the first error. Use counts are in order
    // afterwards exactly when no queue beyond the loaded ones has a vector.
    method LoadVectorsFrom(k: nat, f: QEMUFile) returns (ret: int, ghost e: DeviceEvent)
      requires DeviceValid() && k <= VIRTIO_PCI_QUEUE_MAX
      modifies proxy, `mode, f
      ensures e == LoadVectors(old(f.data), k)
      ensures Loaded(ret, proxy.Regs(), f.data) == Load(Conf().Slot(), old(proxy.Regs()), old(f.data), k)
      ensures ret >= 0 ==>
        (Accounting(Conf().Slot(), proxy.Regs()) <==> forall q :: k <= q < VIRTIO_PCI_QUEUE_MAX ==> old(proxy.vector)[q] == VIRTIO_NO_VECTOR)
      ensures ret >= 0 && Accounting(Conf().Slot(), proxy.Regs()) ==> DeviceStep(e) && DeviceValid()
      ensures old(Valid()) && ret >= 0 && Accounting(Conf().Slot(), proxy.Regs()) ==>
        Valid() && Next(Conf(), old(Here()), OnDevice(e), Here())
    {
      ghost var was := Here();
      e := LoadVectors(f.data, k);
      ret := LoadAll(k, f);
      if ret >= 0 {
        LoadKeepsAccountingExactly(Conf().Slot(), was.side.dev.regs, old(f.data), k);
        FollowLoad(was, e);
      }
    }

    ghost method FollowLoad(was: Machine, e: DeviceEvent)
      requires e.LoadVectors? && e.k <= VIRTIO_PCI_QUEUE_MAX
      requires SideShaped(Conf().Slot(), was.side) && SideInv(Conf().Slot(), was.side) && Here() == was.(side := Beside())
      requires Beside() == was.side.(dev := was.side.dev.(regs := proxy.Regs())) && Load(Conf().Slot(), was.side.dev.regs, e.stream, e.k).ret >= 0
      requires Load(Conf().Slot(), was.side.dev.regs, e.stream, e.k).regs == proxy.Regs()
      modifies `mode
      ensures Accounting(Conf().Slot(), proxy.Regs()) ==>
        && DeviceNext(Conf().Slot(), was.notif.msixEnabled, was.side, e, Beside())
        && DeviceValid() && Here() == was.(side := Beside(), mode := mode)
        && (Inv(Conf(), was) ==> Valid() && Next(Conf(), was, OnDevice(e), Here()))
    {
      if Accounting(Conf().Slot(), proxy.Regs()) {
        LoadKeepsAccountingExactly(Conf().Slot(), was.side.dev.regs, e.stream, e.k);
        Follow(was, e);
      }
    }

    method LoadAll(k: nat, f: QEMUFile) returns (ret: int)
      requires k <= VIRTIO_PCI_QUEUE_MAX && RegisterShape(Conf().Slot(), proxy.Regs())
      modifies proxy`used, proxy`vector, proxy`configVector, f
      ensures Loaded(ret, proxy.Regs(), f.data) == Load(Conf().Slot(), old(proxy.Regs()), old(f.data), k)
    {
      LoadConfigStep(Conf().Slot(), proxy.Regs(), f.data);
      ret := proxy.LoadConfig(0, f);
      if ret >= 0 {
        ret := LoadEachQueue(k, f);
      }
    }

    method LoadEachQueue(k: nat, f: QEMUFile) returns (ret: int)
      requires k <= VIRTIO_PCI_QUEUE_MAX && RegisterShape(Conf().Slot(), proxy.Regs())
      modifies proxy`used, proxy`vector, f
      ensures Loaded(ret, proxy.Regs(), f.data) == LoadQueues(Conf().Slot(), old(proxy.Regs()), old(f.data), k)
    {
      ghost var p, r0, s0 := Conf().Slot(), proxy.Regs(), f.data;
      ret := 0;
      var n := 0;
      while n < k && ret >= 0
        invariant n <= k && |proxy.used| == proxy.nr && |proxy.vector| == VIRTIO_PCI_QUEUE_MAX
        invariant Loaded(ret, proxy.Regs(), f.data) == LoadQueues(p, r0, s0, n)
      {
        ret := proxy.LoadQueue(n, f);
        n := n + 1;
      }
      StopsAtError(p, r0, s0, n, k);
    }

    lemma {:induction false} StopsAtError(p: Plug, r: Registers, s: seq<nat>, n: nat, k: nat)
      requires n <= k && (n < k ==> LoadQueues(p, r, s, n).ret < 0)
      ensures LoadQueues(p, r, s, k) == LoadQueues(p, r, s, n)
    {
      if n < k {
        StopsAtError(p, r, s, n, k - 1);
      }
    }
  }
}

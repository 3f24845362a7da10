/** Whole runs of the device side of the transport: registers, MSI-X use counts, ioeventfd,
    host notifiers and migration, whatever the guest notifiers are doing meanwhile. */
module DeviceRuns {
  import opened NotifierSpec
  import opened RegisterSpec
  import opened MigrationSpec

  /** The device, and the host notifiers that the device model holds. */
  datatype Side = Side(dev: Device, held: set<nat>)

  /** `out` says how it goes if the event has ioeventfd started. */
  datatype DeviceEvent =
    | RegisterWrite(addr: nat, val: nat, out: Outcome)
    | CommandWrite(busMaster: bool)
    | Vmstate(running: bool, out: Outcome)
    | ResetDevice
    | HostNotifier(n: nat, assign: bool, ok: bool)
    | LoadVectors(stream: seq<nat>, k: nat)

  ghost predicate SideShaped(p: Plug, x: Side) {
    RegisterShape(p, x.dev.regs) && |x.dev.io.host| == |x.dev.io.handler| == VIRTIO_PCI_QUEUE_MAX
  }

  /** The events that start ioeventfd unless something speaks against it. */
  predicate Starts(e: DeviceEvent) {
    match e
    case RegisterWrite(addr, val, _) => addr == VIRTIO_PCI_STATUS && IsDriverOk(val)
    case Vmstate(running, _) => running
    case _ => false
  }

  ghost predicate MayStart(p: Plug, d: Device, e: DeviceEvent) { Starts(e) && Startable(p, d.io) }

  /** A step, with MSI-X enabled (`msix`) or not. */
  ghost predicate DeviceNext(p: Plug, msix: bool, x: Side, e: DeviceEvent, x': Side)
    requires SideShaped(p, x)
  {
    match e
    case RegisterWrite(addr, val, out) =>
      x'.held == x.held && ConfigWriteStep(p, msix, x.dev, addr, val, out, x'.dev)
    case CommandWrite(busMaster) =>
      x' == x.(dev := CommandWritten(p, x.dev, busMaster))
    case Vmstate(running, out) =>
      x'.held == x.held && VmstateStep(p, x.dev, running, out, x'.dev)
    case ResetDevice =>
      x' == x.(dev := DeviceReset(p, x.dev))
    case HostNotifier(n, assign, ok) =>
      // The device model gives back only what it took.
      && n < VIRTIO_PCI_QUEUE_MAX && assign == (n !in x.held)
      && x'.dev.regs == x.dev.regs && SetHostNotifierStep(p, x.dev.io, x'.dev.io, n, assign, ok)
      && x'.held == if !ok then x.held else if assign then x.held + {n} else x.held - {n}
    case LoadVectors(stream, k) =>
      // The load succeeds, and no queue beyond the loaded ones has a vector.
      && k <= VIRTIO_PCI_QUEUE_MAX
      && (forall q :: k <= q < VIRTIO_PCI_QUEUE_MAX ==> x.dev.regs.vector[q] == VIRTIO_NO_VECTOR)
      && var l := Load(p, x.dev.regs, stream, k);
         l.ret >= 0 && x' == x.(dev := x.dev.(regs := l.regs))
  }

  ghost predicate SideInitial(p: Plug, x: Side) {
    && SideShaped(p, x) && x.dev.regs == ResetRegisters(x.dev.regs)
    && x.held == {} && !x.dev.io.started && !x.dev.io.doubled
    && (forall q :: 0 <= q < VIRTIO_PCI_QUEUE_MAX ==> x.dev.io.host[q] == 0 && !x.dev.io.handler[q])
  }

  /** Use counts and host notifiers are in order, and ioeventfd runs beside an active queue
      of the device model only at the price of a doubled notifier. */
  ghost predicate SideInv(p: Plug, x: Side) {
    && Accounting(p, x.dev.regs) && HostNotifiersOwned(p, x.dev, x.held)
    && (x.dev.io.started && HeldActive(p, x.held) ==> x.dev.io.doubled)
  }

  lemma SideInitialInv(p: Plug, x: Side)
    requires SideInitial(p, x) && |p.num| == VIRTIO_PCI_QUEUE_MAX
    ensures SideInv(p, x) && HandlersOwned(p, x.dev, x.held)
  {
    ResetKeepsAccounting(p, x.dev.regs);
  }

  /** What a step preserves, `faulty` if it doubles a notifier. The handlers stay with the
      active queues as long as ioeventfd does not run beside active queues of the device model. */
  ghost predicate SideKept(p: Plug, x: Side, x': Side, faulty: bool) {
    && SideInv(p, x') && x'.dev.io.doubled == (x.dev.io.doubled || faulty)
    && (HandlersOwned(p, x.dev, x.held) && (x'.dev.io.started ==> !HeldActive(p, x'.held)) ==> HandlersOwned(p, x'.dev, x'.held))
  }

  lemma StoppedKeeps(p: Plug, x: Side, r: Registers)
    requires SideInv(p, x) && Accounting(p, r)
    ensures SideKept(p, x, x.(dev := Device(r, StopIoeventfd(p, x.dev.io))), false)
  {
    StopKeeps(p, x.dev, x.held, r);
  }

  lemma StartedKeeps(p: Plug, x: Side, out: Outcome, x': Side)
    requires SideInv(p, x) && x'.held == x.held && Accounting(p, x'.dev.regs) && StartedIoeventfd(p, x.dev.io, out, x'.dev.io)
    ensures SideKept(p, x, x', Startable(p, x.dev.io) && MeetsHeld(p, x.held, out))
  {
    StartKeeps(p, x.dev, x.held, out, x'.dev);
  }

  lemma StatusKeeps(p: Plug, x: Side, val: nat, out: Outcome, x': Side)
    requires SideInv(p, x) && x'.held == x.held
    requires IoportStep(p, x.dev, VIRTIO_PCI_STATUS, val, out, x'.dev)
    ensures SideKept(p, x, x', IsDriverOk(val) && Startable(p, x.dev.io) && MeetsHeld(p, x.held, out))
  {
    if IsDriverOk(val) {
      StartedKeeps(p, x, out, x');
    } else {
      ResetKeepsAccounting(p, x.dev.regs);
      StoppedKeeps(p, x, x'.dev.regs);
    }
  }

  lemma IoportKeeps(p: Plug, x: Side, addr: nat, val: nat, out: Outcome, x': Side)
    requires SideInv(p, x) && x'.held == x.held && addr != VIRTIO_PCI_STATUS
    requires IoportStep(p, x.dev, addr, val, out, x'.dev)
    ensures SideKept(p, x, x', false)
  {
    if addr == VIRTIO_PCI_QUEUE_PFN {
      ResetKeepsAccounting(p, x.dev.regs);
      StoppedKeeps(p, x, x'.dev.regs);
    } else {
      SelectorAndVectorsKeep(p, x.dev.regs, addr, val, x'.dev.regs);
    }
  }

  lemma SelectorAndVectorsKeep(p: Plug, r: Registers, addr: nat, val: nat, r': Registers)
    requires Accounting(p, r)
    requires r' == if addr == VIRTIO_PCI_QUEUE_SEL && val < VIRTIO_PCI_QUEUE_MAX then r.(queueSel := val)
      else if addr == VIRTIO_MSI_CONFIG_VECTOR then WriteConfigVector(r, val)
      else if addr == VIRTIO_MSI_QUEUE_VECTOR then WriteQueueVector(r, val)
      else r
    ensures Accounting(p, r')
  {
    WriteConfigVectorKeepsAccounting(p, r, val);
    WriteQueueVectorCounted(p, r, val);
  }

  lemma HostNotifierKeeps(p: Plug, x: Side, n: nat, assign: bool, ok: bool, x': Side)
    requires SideInv(p, x) && n < VIRTIO_PCI_QUEUE_MAX
    requires assign == (n !in x.held) && x'.dev.regs == x.dev.regs && SetHostNotifierStep(p, x.dev.io, x'.dev.io, n, assign, ok)
    requires x'.held == if !ok then x.held else if assign then x.held + {n} else x.held - {n}
    ensures SideKept(p, x, x', false)
  {
    StopKeeps(p, x.dev, x.held, x.dev.regs);
    assert assign ==> !x'.dev.io.started;
  }

  /** A start of ioeventfd gets to an active queue that the device model holds, whether it
      succeeds or fails further on. */
  ghost predicate FaultyStart(p: Plug, x: Side, e: DeviceEvent) {
    MayStart(p, x.dev, e) && MeetsHeld(p, x.held, e.out)
  }

  /** Every step keeps use counts and host notifiers in order, and doubles a notifier
      exactly if it is such a start. */
  lemma DeviceNextKeeps(p: Plug, msix: bool, x: Side, e: DeviceEvent, x': Side)
    requires SideShaped(p, x) && SideInv(p, x) && DeviceNext(p, msix, x, e, x')
    ensures SideShaped(p, x') && SideKept(p, x, x', FaultyStart(p, x, e))
  {
    match e
    case RegisterWrite(addr, val, out) =>
      if addr == VIRTIO_PCI_STATUS {
        StatusKeeps(p, x, val, out, x');
      } else if x'.dev != x.dev {
        IoportKeeps(p, x, addr, val, out, x');
      }
    case CommandWrite(busMaster) =>
      StoppedKeeps(p, x, x'.dev.regs);
    case Vmstate(running, out) =>
      if running {
        StartedKeeps(p, x, out, x');
      } else {
        StoppedKeeps(p, x, x'.dev.regs);
      }
    case ResetDevice =>
      ResetKeepsAccounting(p, x.dev.regs);
      StoppedKeeps(p, x, x'.dev.regs);
    case HostNotifier(n, assign, ok) =>
      HostNotifierKeeps(p, x, n, assign, ok, x');
    case LoadVectors(stream, k) =>
      LoadEstablishesAccounting(p, x.dev.regs, stream, k);
  }

  // ----- whole runs -----

  /** MSI-X may be enabled and disabled at will in between. */
  ghost predicate IsDeviceRun(p: Plug, t: seq<Side>, es: seq<DeviceEvent>, msix: seq<bool>) {
    && |t| == |es| + 1 && |msix| == |es| && |p.num| == VIRTIO_PCI_QUEUE_MAX && SideInitial(p, t[0])
    && forall i :: 0 <= i < |es| ==> SideShaped(p, t[i]) && DeviceNext(p, msix[i], t[i], es[i], t[i + 1])
  }

  /** In every reachable state each use count is one for the configuration vector plus one
      per queue mapped to the vector, and each host notifier is accounted for; ioeventfd
      is started only when enabled and not disabled. */
  lemma {:induction false} DeviceRunInv(p: Plug, t: seq<Side>, es: seq<DeviceEvent>, msix: seq<bool>, i: nat)
    requires IsDeviceRun(p, t, es, msix) && i <= |es|
    ensures SideShaped(p, t[i]) && SideInv(p, t[i])
  {
    if i == 0 {
      SideInitialInv(p, t[0]);
    } else {
      DeviceRunInv(p, t, es, msix, i - 1);
      DeviceNextKeeps(p, msix[i - 1], t[i - 1], es[i - 1], t[i]);
    }
  }

  /** Where the virtio core reports a running device only once its driver is ready,
      ioeventfd is started only while it is. */
  ghost predicate StartedReady(x: Side) { x.dev.io.started ==> IsDriverOk(x.dev.regs.status) }

  lemma {:induction false} RunStartedReady(p: Plug, t: seq<Side>, es: seq<DeviceEvent>, msix: seq<bool>, i: nat)
    requires IsDeviceRun(p, t, es, msix) && i <= |es|
    requires forall j :: 0 <= j < |es| && es[j].Vmstate? && es[j].running ==> IsDriverOk(t[j].dev.regs.status)
    ensures StartedReady(t[i])
  {
    if i > 0 {
      RunStartedReady(p, t, es, msix, i - 1);
      ReadyKept(p, msix[i - 1], t[i - 1], es[i - 1], t[i]);
    }
  }

  lemma ReadyKept(p: Plug, msix: bool, x: Side, e: DeviceEvent, x': Side)
    requires SideShaped(p, x) && DeviceNext(p, msix, x, e, x') && StartedReady(x)
    requires e.Vmstate? && e.running ==> IsDriverOk(x.dev.regs.status)
    ensures StartedReady(x')
  {
    if e.LoadVectors? {
      LoadConfigStep(p, x.dev.regs, e.stream);
      var c := LoadConfig(p, x.dev.regs, e.stream);
      if c.ret >= 0 {
        LoadQueuesSound(p, c.regs, c.rest, e.k);
      }
    } else if e.RegisterWrite? && e.addr == VIRTIO_PCI_STATUS {
      LowByteKeepsDriverOk(e.val);
    }
  }

  /** Under the same rule ioeventfd is started only while the device may master the bus, or
      its driver is known not to ask for it. */
  ghost predicate StartedMastered(x: Side) { x.dev.io.started ==> x.dev.regs.busMaster || x.dev.regs.busMasterBug }

  lemma {:induction false} RunStartedMastered(p: Plug, t: seq<Side>, es: seq<DeviceEvent>, msix: seq<bool>, i: nat)
    requires IsDeviceRun(p, t, es, msix) && i <= |es|
    requires forall j :: 0 <= j < |es| && es[j].Vmstate? && es[j].running ==> IsDriverOk(t[j].dev.regs.status)
    ensures StartedMastered(t[i])
  {
    if i > 0 {
      RunStartedMastered(p, t, es, msix, i - 1);
      MasteredKept(p, msix[i - 1], t[i - 1], es[i - 1], t[i]);
    }
  }

  lemma MasteredKept(p: Plug, msix: bool, x: Side, e: DeviceEvent, x': Side)
    requires SideShaped(p, x) && DeviceNext(p, msix, x, e, x') && StartedMastered(x)
    requires e.Vmstate? && e.running ==> IsDriverOk(x.dev.regs.status)
    ensures StartedMastered(x')
  {
    if e.LoadVectors? {
      LoadConfigStep(p, x.dev.regs, e.stream);
      var c := LoadConfig(p, x.dev.regs, e.stream);
      if c.ret >= 0 {
        LoadQueuesSound(p, c.regs, c.rest, e.k);
      }
    } else if e.RegisterWrite? {
      if x'.dev != x.dev {
        IoportStepWrites(p, x.dev, e.addr, e.val, e.out, x'.dev);
      }
    } else if e.CommandWrite? {
      CommandStops(p, x.dev);
    }
  }

  // ----- host notifiers initialised twice -----

  /** A step doubles a notifier if and only if it is a start of ioeventfd that gets to an
      active queue of the device model. */
  lemma FaultStepExactly(p: Plug, msix: bool, x: Side, e: DeviceEvent, x': Side)
    requires SideShaped(p, x) && SideInv(p, x) && DeviceNext(p, msix, x, e, x')
    ensures x'.dev.io.doubled <==> x.dev.io.doubled || FaultyStart(p, x, e)
  {
    DeviceNextKeeps(p, msix, x, e, x');
  }

  /** The event with another outcome, if it has one. */
  function WithOutcome(e: DeviceEvent, out: Outcome): DeviceEvent {
    match e
    case RegisterWrite(addr, val, _) => RegisterWrite(addr, val, out)
    case Vmstate(running, _) => Vmstate(running, out)
    case _ => e
  }

  /** Every start can succeed, and can fail at any active queue. */
  lemma StartPossible(p: Plug, msix: bool, x: Side, e: DeviceEvent) returns (x': Side)
    requires SideShaped(p, x) && SideInv(p, x) && MayStart(p, x.dev, e)
    requires e.out.FailsAt? ==> e.out.q < VIRTIO_PCI_QUEUE_MAX && Active(p.num, e.out.q)
    ensures DeviceNext(p, msix, x, e, x')
  {
    var d := x.dev;
    var io := match e.out
      case Success =>
        d.io.(started := true, host := ShiftHost(p.num, d.io.host, |d.io.host|, 1),
              handler := SetHandlers(p.num, d.io.handler, |d.io.handler|, true),
              doubled := d.io.doubled || SomeInit(p.num, d.io.host, 0, |d.io.host|))
      case FailsAt(n) =>
        d.io.(handler := SetHandlers(p.num, d.io.handler, n, false),
              doubled := d.io.doubled || SomeInit(p.num, d.io.host, 0, n) || SomeUnder(p.num, d.io.host, 0, n));
    var bug := d.regs.busMasterBug || !d.regs.busMaster;
    var regs := match e
      case RegisterWrite(_, val, _) => d.regs.(status := val % 256, busMasterBug := bug)
      case _ => d.regs.(busMasterBug := d.regs.busMasterBug || (IsDriverOk(d.regs.status) && !d.regs.busMaster));
    x' := x.(dev := Device(regs, io));
  }

  /** So an event can double a notifier exactly then: with its given outcome, ... */
  lemma FaultReachableExactly(p: Plug, msix: bool, x: Side, e: DeviceEvent)
    requires SideShaped(p, x) && SideInv(p, x) && !x.dev.io.doubled
    ensures (exists x' :: DeviceNext(p, msix, x, e, x') && x'.dev.io.doubled) <==> FaultyStart(p, x, e)
  {
    if x' :| DeviceNext(p, msix, x, e, x') && x'.dev.io.doubled {
      FaultStepExactly(p, msix, x, e, x');
    }
    if FaultyStart(p, x, e) {
      var x' := StartPossible(p, msix, x, e);
      FaultStepExactly(p, msix, x, e, x');
    }
  }

  /** ... and, with some outcome, when ioeventfd may be started while the device model holds
      an active queue at all. */
  lemma FaultPossibleExactly(p: Plug, msix: bool, x: Side, e: DeviceEvent)
    requires SideShaped(p, x) && SideInv(p, x) && !x.dev.io.doubled
    ensures (exists out, x' :: DeviceNext(p, msix, x, WithOutcome(e, out), x') && x'.dev.io.doubled)
       <==> MayStart(p, x.dev, e) && HeldActive(p, x.held)
  {
    if out, x' :| DeviceNext(p, msix, x, WithOutcome(e, out), x') && x'.dev.io.doubled {
      FaultStepExactly(p, msix, x, WithOutcome(e, out), x');
      assert MeetsHeld(p, x.held, out);
    }
    if MayStart(p, x.dev, e) && HeldActive(p, x.held) {
      FaultReachableExactly(p, msix, x, WithOutcome(e, Success));
    }
  }

  /** A host notifier is initialised while it was, or cleaned up while it was not, somewhere
      in a run if and only if a start of ioeventfd gets to an active queue that the device
      model holds, whether that start succeeds or fails. */
  lemma {:induction false} RunHostFaultExactly(p: Plug, t: seq<Side>, es: seq<DeviceEvent>, msix: seq<bool>, i: nat)
    requires IsDeviceRun(p, t, es, msix) && i <= |es|
    ensures t[i].dev.io.doubled <==> exists j :: 0 <= j < i && FaultyStart(p, t[j], es[j])
  {
    if i > 0 {
      RunHostFaultExactly(p, t, es, msix, i - 1);
      DeviceRunInv(p, t, es, msix, i - 1);
      FaultStepExactly(p, msix[i - 1], t[i - 1], es[i - 1], t[i]);
      if t[i - 1].dev.io.doubled {
        var j :| 0 <= j < i - 1 && FaultyStart(p, t[j], es[j]);
        assert 0 <= j < i;
      }
    }
  }

  /** Without such a start no notifier is ever initialised or cleaned up twice, and QEMU
      serves exactly the active queues while ioeventfd is started and none otherwise. */
  lemma {:induction false} DisciplinedRun(p: Plug, t: seq<Side>, es: seq<DeviceEvent>, msix: seq<bool>, i: nat)
    requires IsDeviceRun(p, t, es, msix) && i <= |es|
    requires forall j :: 0 <= j < |es| ==> !FaultyStart(p, t[j], es[j])
    ensures HandlersOwned(p, t[i].dev, t[i].held) && !t[i].dev.io.doubled
    ensures forall q :: 0 <= q < |t[i].dev.io.host| ==> t[i].dev.io.host[q] in {0, 1}
  {
    DeviceRunInv(p, t, es, msix, i);
    RunHostFaultExactly(p, t, es, msix, i);
    HostCounts(p, t[i].dev, t[i].held);
    if i == 0 {
      SideInitialInv(p, t[0]);
    } else {
      DisciplinedRun(p, t, es, msix, i - 1);
      DeviceRunInv(p, t, es, msix, i - 1);
      DeviceNextKeeps(p, msix[i - 1], t[i - 1], es[i - 1], t[i]);
    }
  }

  // ----- migration -----

  /** Any reachable state can be saved and loaded into a freshly reset device of the same
      geometry. It arrives complete if and only if no queue beyond the `k` saved ones has
      a vector; what arrives always has correct use counts. */
  lemma AnyStateMigrates(p: Plug, t: seq<Side>, es: seq<DeviceEvent>, msix: seq<bool>, i: nat, r0: Registers, k: nat)
    requires IsDeviceRun(p, t, es, msix) && i <= |es| && k <= VIRTIO_PCI_QUEUE_MAX
    requires RegisterShape(p, r0) && r0 == ResetRegisters(r0)
    ensures var (r, l) := (t[i].dev.regs, Load(p, r0, Save(p, t[i].dev.regs, k), k));
      && |r.vector| == VIRTIO_PCI_QUEUE_MAX && l.ret >= 0 && l.rest == [] && Accounting(p, l.regs)
      && (l.regs.configVector == r.configVector && l.regs.vector == r.vector && l.regs.used == r.used
          <==> forall q :: k <= q < VIRTIO_PCI_QUEUE_MAX ==> r.vector[q] == VIRTIO_NO_VECTOR)
  {
    DeviceRunInv(p, t, es, msix, i);
    ResetKeepsAccounting(p, r0);
    MigrationRestores(p, t[i].dev.regs, r0, k);
  }

  // ----- how a notifier comes to be initialised twice -----

  function FreshDevice(nr: nat): Device {
    Device(Registers(VIRTIO_NO_VECTOR, NoVectors64(), 0, 0, Zeros(nr), true, false),
           Ioeventfd(false, false, seq(VIRTIO_PCI_QUEUE_MAX, _ => 0), seq(VIRTIO_PCI_QUEUE_MAX, _ => false), false))
  }

  function Queues(): (s: seq<nat>)
    ensures |s| == VIRTIO_PCI_QUEUE_MAX && forall q :: 0 <= q < |s| ==> s[q] == 128
  {
    seq(VIRTIO_PCI_QUEUE_MAX, _ => 128)
  }

  /** A device model takes the host notifiers of two queues and gives the first back, which
      re-enables ioeventfd. */
  lemma OneGivenBack() returns (p: Plug, t: seq<Side>, es: seq<DeviceEvent>, msix: seq<bool>)
    ensures IsDeviceRun(p, t, es, msix) && |es| == 3 && p == Plug(0, Queues(), true)
    ensures t[3].held == {1} && Startable(p, t[3].dev.io) && !t[3].dev.io.doubled
  {
    p := Plug(0, Queues(), true);
    var d0 := FreshDevice(0);
    var io0 := d0.io;
    var io1 := io0.(disabled := true, host := io0.host[0 := 1], handler := io0.handler[0 := false]);
    var io2 := io1.(host := io1.host[1 := 1], handler := io1.handler[1 := false]);
    var io3 := io2.(disabled := false, host := io2.host[0 := 0], handler := io2.handler[0 := false]);
    var x0 := Side(d0, {});
    var x1 := Side(d0.(io := io1), {0});
    var x2 := Side(d0.(io := io2), {0, 1});
    var x3 := Side(d0.(io := io3), {1});
    t := [x0, x1, x2, x3];
    es := [HostNotifier(0, true, true), HostNotifier(1, true, true), HostNotifier(0, false, true)];
    msix := [false, false, false];
    assert DeviceNext(p, false, x0, es[0], x1);
    assert DeviceNext(p, false, x1, es[1], x2);
    assert DeviceNext(p, false, x2, es[2], x3);
  }

  /** The next start initialises the notifier still held a second time: when it succeeds, ... */
  lemma EarlyRestartInitialisesTwice() returns (p: Plug, t: seq<Side>, es: seq<DeviceEvent>, msix: seq<bool>)
    ensures IsDeviceRun(p, t, es, msix) && t[|es|].dev.io.doubled && t[|es|].dev.io.started
  {
    p, t, es, msix := RestartedWith(Success);
  }

  /** ... and when it fails at a later queue, although afterwards nothing shows in the counts. */
  lemma FailedRestartInitialisesTwice() returns (p: Plug, t: seq<Side>, es: seq<DeviceEvent>, msix: seq<bool>)
    ensures IsDeviceRun(p, t, es, msix) && t[|es|].dev.io.doubled && !t[|es|].dev.io.started
    ensures |es| > 0 && t[|es|].dev.io.host == t[|es| - 1].dev.io.host
  {
    p, t, es, msix := RestartedWith(FailsAt(2));
  }

  lemma RestartedWith(out: Outcome) returns (p: Plug, t: seq<Side>, es: seq<DeviceEvent>, msix: seq<bool>)
    requires out == Success || out == FailsAt(2)
    ensures IsDeviceRun(p, t, es, msix) && |es| == 4 && t[4].dev.io.doubled && t[4].dev.io.started == (out == Success)
    ensures out != Success ==> t[4].dev.io.host == t[3].dev.io.host
  {
    p, t, es, msix := OneGivenBack();
    var start := RegisterWrite(VIRTIO_PCI_STATUS, DRIVER_OK, out);
    DeviceRunInv(p, t, es, msix, 3);
    assert 1 in t[3].held && Active(p.num, 1) && Active(p.num, 2);
    assert FaultyStart(p, t[3], start);
    var x := StartPossible(p, false, t[3], start);
    FaultStepExactly(p, false, t[3], start, x);
    t, es, msix := t + [x], es + [start], msix + [false];
  }
}

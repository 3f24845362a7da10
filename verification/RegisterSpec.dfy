/** The guest-visible registers of the virtio-pci transport: MSI-X use counts,
    ioeventfd and the host notifiers, resets and migration, as functions on values. */
module RegisterSpec {
  import opened VectorCounting
  import opened NotifierSpec

  const VIRTIO_NO_VECTOR: nat := 0xFFFF
  const MSIX_MAX_ENTRIES: nat := 2048
  const DRIVER_OK: nat := 4

  const VIRTIO_PCI_QUEUE_PFN: nat := 8
  const VIRTIO_PCI_QUEUE_SEL: nat := 14
  const VIRTIO_PCI_STATUS: nat := 18
  const VIRTIO_MSI_CONFIG_VECTOR: nat := 20
  const VIRTIO_MSI_QUEUE_VECTOR: nat := 22
  const VIRTIO_PCI_CONFIG_NOMSI: nat := 20
  const VIRTIO_PCI_CONFIG_MSI: nat := 24

  /** `used[v]` is the MSI-X use count of vector v. */
  datatype Registers = Registers(
    configVector: nat, vector: seq<nat>, queueSel: nat, status: nat, used: seq<nat>, busMaster: bool, busMasterBug: bool)

  /** `host[q]` counts initialisations minus cleanups of queue q's host notifier;
      `handler[q]` says whether QEMU itself serves it; `doubled` is set once some notifier
      has been initialised while it was, or cleaned up while it was not. */
  datatype Ioeventfd = Ioeventfd(started: bool, disabled: bool, host: seq<int>, handler: seq<bool>, doubled: bool)

  /** How a start of ioeventfd goes, or at which queue it fails. */
  datatype Outcome = Success | FailsAt(q: nat)

  datatype Device = Device(regs: Registers, io: Ioeventfd)

  /** Fixed at plug time: the number of MSI-X vectors (0 without MSI-X), the queue
      sizes, and whether ioeventfd may be used. */
  datatype Plug = Plug(nr: nat, num: seq<nat>, useIoeventfd: bool)

  predicate IsDriverOk(status: nat) { (status / DRIVER_OK) % 2 == 1 }

  function ClearDriverOk(status: nat): nat { if IsDriverOk(status) then status - DRIVER_OK else status }

  // ----- MSI-X use counts -----

  function UseVector(used: seq<nat>, v: nat): seq<nat> {
    if v < |used| then used[v := used[v] + 1] else used
  }

  function UnuseVector(used: seq<nat>, v: nat): seq<nat> {
    if v < |used| && used[v] > 0 then used[v := used[v] - 1] else used
  }

  function Zeros(n: nat): (s: seq<nat>)
    ensures |s| == n && forall i :: 0 <= i < n ==> s[i] == 0
  {
    seq(n, _ => 0)
  }

  ghost predicate InRange(nr: nat, v: nat) { v < nr || v == VIRTIO_NO_VECTOR }

  ghost predicate RegisterShape(p: Plug, r: Registers) {
    && p.nr <= MSIX_MAX_ENTRIES && |p.num| == VIRTIO_PCI_QUEUE_MAX
    && |r.vector| == VIRTIO_PCI_QUEUE_MAX && |r.used| == p.nr
  }

  /** The use count of every vector is one for the configuration vector plus one per
      queue mapped to it. */
  ghost predicate Counted(p: Plug, r: Registers) {
    && RegisterShape(p, r)
    && InRange(p.nr, r.configVector)
    && (forall q :: 0 <= q < |r.vector| ==> InRange(p.nr, r.vector[q]))
    && (forall v :: 0 <= v < p.nr ==>
          r.used[v] == (if r.configVector == v then 1 else 0) + Mapped(r.vector, v))
  }

  /** ... and the queue selector names a queue. */
  ghost predicate Accounting(p: Plug, r: Registers) { Counted(p, r) && r.queueSel < VIRTIO_PCI_QUEUE_MAX }

  /** virtio_queue_vector and virtio_queue_set_vector: no queue beyond the last. */
  function QueueVector(r: Registers, q: nat): nat { if q < |r.vector| then r.vector[q] else VIRTIO_NO_VECTOR }

  function SetQueueVector(r: Registers, q: nat, v: nat): Registers {
    if q < |r.vector| then r.(vector := r.vector[q := v]) else r
  }

  function WriteConfigVector(r: Registers, val: nat): Registers {
    var used := UnuseVector(r.used, r.configVector);
    r.(used := UseVector(used, val), configVector := if val < |used| then val else VIRTIO_NO_VECTOR)
  }

  function WriteQueueVector(r: Registers, val: nat): Registers {
    var used := UnuseVector(r.used, QueueVector(r, r.queueSel));
    SetQueueVector(r.(used := UseVector(used, val)), r.queueSel, if val < |used| then val else VIRTIO_NO_VECTOR)
  }

  function NoVectors64(): (s: seq<nat>)
    ensures |s| == VIRTIO_PCI_QUEUE_MAX && forall i :: 0 <= i < |s| ==> s[i] == VIRTIO_NO_VECTOR
  {
    seq(VIRTIO_PCI_QUEUE_MAX, _ => VIRTIO_NO_VECTOR)
  }

  /** virtio_reset followed by msix_unuse_all_vectors. */
  function ResetRegisters(r: Registers): Registers {
    r.(configVector := VIRTIO_NO_VECTOR, vector := NoVectors64(), queueSel := 0, status := 0, used := Zeros(|r.used|))
  }

  lemma WriteConfigVectorKeepsAccounting(p: Plug, r: Registers, val: nat)
    requires Accounting(p, r)
    ensures Accounting(p, WriteConfigVector(r, val))
  {
  }

  /** Writing the queue vector register keeps the counts exactly when the selector names
      a queue or the value is refused: otherwise a use is counted that no queue takes up. */
  lemma WriteQueueVectorCounted(p: Plug, r: Registers, val: nat)
    requires Counted(p, r)
    ensures Counted(p, WriteQueueVector(r, val)) <==> r.queueSel < VIRTIO_PCI_QUEUE_MAX || val >= p.nr
  {
    var r' := WriteQueueVector(r, val);
    if r.queueSel < VIRTIO_PCI_QUEUE_MAX {
      var w := r'.vector[r.queueSel];
      UsersOfPositive(r.vector, |r.vector|, r.vector[r.queueSel]);
      forall v | 0 <= v < p.nr
        ensures r'.used[v] == (if r'.configVector == v then 1 else 0) + Mapped(r'.vector, v)
      {
        UsersOfUpdate(r.vector, |r.vector|, r.queueSel, w, v);
      }
    } else if val < p.nr {
      assert r'.used[val] == r.used[val] + 1;
    }
  }

  lemma ResetKeepsAccounting(p: Plug, r: Registers)
    requires RegisterShape(p, r)
    ensures Accounting(p, ResetRegisters(r))
  {
    var r' := ResetRegisters(r);
    forall v | 0 <= v < p.nr ensures Mapped(r'.vector, v) == 0 {
      UsersOfPositive(r'.vector, |r'.vector|, v);
    }
  }

  // ----- ioeventfd and host notifiers -----

  function Active(num: seq<nat>, q: nat): bool { q < |num| && num[q] != 0 }

  /** Every queue of nonzero size among the first `n` gains (`d == 1`) or loses (`d == -1`)
      a host notifier served (or no longer served) by QEMU. */
  function ShiftHost(num: seq<nat>, host: seq<int>, n: nat, d: int): (h: seq<int>)
    ensures |h| == |host|
    ensures forall q :: 0 <= q < |h| ==> h[q] == host[q] + if q < n && Active(num, q) then d else 0
  {
    seq(|host|, q requires 0 <= q < |host| => host[q] + if q < n && Active(num, q) then d else 0)
  }

  function SetHandlers(num: seq<nat>, handler: seq<bool>, n: nat, b: bool): (h: seq<bool>)
    ensures |h| == |handler|
    ensures forall q :: 0 <= q < |h| ==> h[q] == if q < n && Active(num, q) then b else handler[q]
  {
    seq(|handler|, q requires 0 <= q < |handler| => if q < n && Active(num, q) then b else handler[q])
  }

  /** Some active queue in the range has its notifier initialised, ... */
  ghost predicate SomeInit(num: seq<nat>, host: seq<int>, a: nat, b: nat) {
    exists q :: a <= q < b && q < |host| && Active(num, q) && host[q] > 0
  }

  /** ... or not initialised, ... */
  ghost predicate SomeBare(num: seq<nat>, host: seq<int>, a: nat, b: nat) {
    exists q :: a <= q < b && q < |host| && Active(num, q) && host[q] <= 0
  }

  /** ... or cleaned up too often already. */
  ghost predicate SomeUnder(num: seq<nat>, host: seq<int>, a: nat, b: nat) {
    exists q :: a <= q < b && q < |host| && Active(num, q) && host[q] < 0
  }

  lemma SomeMore(num: seq<nat>, host: seq<int>, a: nat, b: nat)
    requires a <= b < |host|
    ensures SomeInit(num, host, a, b + 1) <==> SomeInit(num, host, a, b) || (Active(num, b) && host[b] > 0)
    ensures SomeBare(num, host, a, b + 1) <==> SomeBare(num, host, a, b) || (Active(num, b) && host[b] <= 0)
    ensures a < b ==> (SomeUnder(num, host, a, b) <==> SomeUnder(num, host, a + 1, b) || (Active(num, a) && host[a] < 0))
  {
  }

  /** Stopping cleans every active queue up. */
  ghost function StopIoeventfd(p: Plug, io: Ioeventfd): Ioeventfd {
    if !io.started then io
    else io.(started := false, host := ShiftHost(p.num, io.host, |io.host|, -1), handler := SetHandlers(p.num, io.handler, |io.handler|, false),
             doubled := io.doubled || SomeBare(p.num, io.host, 0, |io.host|))
  }

  ghost predicate Startable(p: Plug, io: Ioeventfd) { p.useIoeventfd && !io.disabled && !io.started }

  /** Starting ioeventfd: nothing when it may not or need not start, otherwise every active
      queue or, after a failure, none. A failure at queue n has initialised the notifiers of
      the active queues below n, cleaned them up again, and taken their handlers away. */
  ghost predicate StartedIoeventfd(p: Plug, io: Ioeventfd, out: Outcome, io': Ioeventfd) {
    if !Startable(p, io) then io' == io
    else
      match out
      case Success =>
        io' == io.(started := true, host := ShiftHost(p.num, io.host, |io.host|, 1), handler := SetHandlers(p.num, io.handler, |io.handler|, true),
                   doubled := io.doubled || SomeInit(p.num, io.host, 0, |io.host|))
      case FailsAt(n) =>
        && n < |io.handler| && n < |io.host| && Active(p.num, n)
        && io' == io.(handler := SetHandlers(p.num, io.handler, n, false),
                      doubled := io.doubled || SomeInit(p.num, io.host, 0, n) || SomeUnder(p.num, io.host, 0, n))
  }

  /** A device model asking for a host notifier of its own stops ioeventfd first. */
  ghost predicate SetHostNotifierStep(p: Plug, io: Ioeventfd, io': Ioeventfd, n: nat, assign: bool, ok: bool)
    requires n < |io.host| && n < |io.handler|
  {
    var s := if assign then StopIoeventfd(p, io.(disabled := true)) else io.(disabled := false);
    if !ok then assign && io' == s
    else io' == s.(host := s.host[n := s.host[n] + if assign then 1 else -1], handler := s.handler[n := false],
                   doubled := s.doubled || (if assign then s.host[n] > 0 else s.host[n] <= 0))
  }

  // ----- register writes -----

  /** A write to the I/O port window. Writes to the feature, notify and queue-address
      registers do not touch what is tracked here. */
  ghost predicate IoportStep(p: Plug, d: Device, addr: nat, val: nat, out: Outcome, d': Device) {
    if addr == VIRTIO_PCI_QUEUE_PFN then
      d' == if val == 0 then Device(ResetRegisters(d.regs), StopIoeventfd(p, d.io)) else d
    else if addr == VIRTIO_PCI_QUEUE_SEL then
      d' == if val < VIRTIO_PCI_QUEUE_MAX then d.(regs := d.regs.(queueSel := val)) else d
    else if addr == VIRTIO_PCI_STATUS then
      if IsDriverOk(val) then
        && StartedIoeventfd(p, d.io, out, d'.io)
        && d'.regs == d.regs.(status := val % 256, busMasterBug := d.regs.busMasterBug || !d.regs.busMaster)
      else
        d' == Device(if val % 256 == 0 then ResetRegisters(d.regs) else d.regs.(status := val % 256), StopIoeventfd(p, d.io))
    else if addr == VIRTIO_MSI_CONFIG_VECTOR then
      d' == d.(regs := WriteConfigVector(d.regs, val))
    else if addr == VIRTIO_MSI_QUEUE_VECTOR then
      d' == d.(regs := WriteQueueVector(d.regs, val))
    else
      d' == d
  }

  /** The vector registers exist only while MSI-X is enabled; above the window lies
      the configuration space of the device itself. */
  ghost predicate ConfigWriteStep(p: Plug, msixEnabled: bool, d: Device, addr: nat, val: nat, out: Outcome, d': Device) {
    if addr < (if msixEnabled then VIRTIO_PCI_CONFIG_MSI else VIRTIO_PCI_CONFIG_NOMSI)
    then IoportStep(p, d, addr, val, out, d')
    else d' == d
  }

  /** A write to the PCI command register that leaves bus mastering as `busMaster`. */
  ghost function CommandWritten(p: Plug, d: Device, busMaster: bool): Device {
    var r := d.regs.(busMaster := busMaster);
    if !busMaster && !r.busMasterBug
    then Device(r.(status := ClearDriverOk(r.status)), StopIoeventfd(p, d.io))
    else d.(regs := r)
  }

  ghost predicate VmstateStep(p: Plug, d: Device, running: bool, out: Outcome, d': Device) {
    if running then
      && d'.regs == d.regs.(busMasterBug := d.regs.busMasterBug || (IsDriverOk(d.regs.status) && !d.regs.busMaster))
      && StartedIoeventfd(p, d.io, out, d'.io)
    else
      d' == d.(io := StopIoeventfd(p, d.io))
  }

  ghost function DeviceReset(p: Plug, d: Device): Device {
    Device(ResetRegisters(d.regs).(busMasterBug := false), StopIoeventfd(p, d.io))
  }

  // ----- what each register shows afterwards -----

  /** One use of `from`, if it has any, is given back, and one of `to` is taken, if it exists. */
  ghost predicate UseMoved(used: seq<nat>, used': seq<nat>, from: nat, to: nat) {
    && |used'| == |used|
    && forall v :: 0 <= v < |used| ==>
         used'[v] == used[v] - (if v == from && used[v] > 0 then 1 else 0) + (if v == to then 1 else 0)
  }

  /** The configuration vector reads `val` if there is such a vector and none otherwise. */
  ghost predicate ConfigVectorSet(d: Device, val: nat, d': Device) {
    && d'.regs.configVector == (if val < |d.regs.used| then val else VIRTIO_NO_VECTOR)
    && UseMoved(d.regs.used, d'.regs.used, d.regs.configVector, val)
    && d' == d.(regs := d.regs.(configVector := d'.regs.configVector, used := d'.regs.used))
  }

  /** So does the vector of the selected queue, and that of no other; if the selector names
      none, only the use is counted. */
  ghost predicate QueueVectorSet(d: Device, val: nat, d': Device) {
    var sel, r, r' := d.regs.queueSel, d.regs, d'.regs;
    && |r'.vector| == |r.vector|
    && (forall q :: 0 <= q < |r.vector| ==>
          r'.vector[q] == if q != sel then r.vector[q] else if val < |r.used| then val else VIRTIO_NO_VECTOR)
    && UseMoved(r.used, r'.used, if sel < |r.vector| then r.vector[sel] else VIRTIO_NO_VECTOR, val)
    && d' == d.(regs := r.(vector := r'.vector, used := r'.used))
  }

  /** No vector, no use, no status, the first queue selected; bus mastering is as it was. */
  ghost predicate Cleared(r: Registers, r': Registers) {
    && r'.configVector == VIRTIO_NO_VECTOR && r'.queueSel == 0 && r'.status == 0 && r'.busMaster == r.busMaster
    && |r'.vector| == VIRTIO_PCI_QUEUE_MAX && (forall q :: 0 <= q < |r'.vector| ==> r'.vector[q] == VIRTIO_NO_VECTOR)
    && |r'.used| == |r.used| && forall v :: 0 <= v < |r'.used| ==> r'.used[v] == 0
  }

  /** ioeventfd does not run; if it did, every active queue has lost one initialisation of
      its host notifier and its handler. */
  ghost predicate Stopped(p: Plug, io: Ioeventfd, io': Ioeventfd) {
    && !io'.started && io'.disabled == io.disabled && |io'.host| == |io.host| && |io'.handler| == |io.handler|
    && (forall q :: 0 <= q < |io.host| ==> io'.host[q] == io.host[q] - if io.started && Active(p.num, q) then 1 else 0)
    && (forall q :: 0 <= q < |io.handler| ==> io'.handler[q] == (io.handler[q] && !(io.started && Active(p.num, q))))
  }

  /** ioeventfd runs, with one more initialisation and a handler on every active queue,
      unless it did already, may not or fails: then all counts are as before, and a failure at
      queue n has taken the handlers of the active queues below n. */
  ghost predicate Started(p: Plug, io: Ioeventfd, out: Outcome, io': Ioeventfd) {
    var may := p.useIoeventfd && !io.disabled && !io.started;
    && |io'.host| == |io.host| && |io'.handler| == |io.handler| && io'.disabled == io.disabled
    && io'.started == (io.started || (may && out == Success))
    && (forall q :: 0 <= q < |io.host| ==> io'.host[q] == io.host[q] + if may && out == Success && Active(p.num, q) then 1 else 0)
    && (forall q :: 0 <= q < |io.handler| ==>
          io'.handler[q] == if may && Active(p.num, q) && (out.FailsAt? ==> q < out.q) then out == Success else io.handler[q])
  }

  /** The status register shows the low byte written, or the device is reset by zero;
      DRIVER_OK starts ioeventfd, its absence stops it, and a driver that is ready without
      bus mastering is noted. */
  ghost predicate StatusSet(p: Plug, d: Device, val: nat, out: Outcome, d': Device) {
    && (if IsDriverOk(val) then Started(p, d.io, out, d'.io) else Stopped(p, d.io, d'.io))
    && d'.regs.busMasterBug == (d.regs.busMasterBug || (IsDriverOk(val) && !d.regs.busMaster))
    && if val % 256 == 0 then Cleared(d.regs, d'.regs)
       else d'.regs == d.regs.(status := val % 256, busMasterBug := d'.regs.busMasterBug)
  }

  /** What a write to the window leaves behind, register by register. */
  ghost predicate Written(p: Plug, d: Device, addr: nat, val: nat, out: Outcome, d': Device) {
    if addr == VIRTIO_MSI_CONFIG_VECTOR then ConfigVectorSet(d, val, d')
    else if addr == VIRTIO_MSI_QUEUE_VECTOR then QueueVectorSet(d, val, d')
    else if addr == VIRTIO_PCI_STATUS then StatusSet(p, d, val, out, d')
    else if addr == VIRTIO_PCI_QUEUE_SEL && val < VIRTIO_PCI_QUEUE_MAX then d' == d.(regs := d.regs.(queueSel := val))
    else if addr == VIRTIO_PCI_QUEUE_PFN && val == 0 then
      Cleared(d.regs, d'.regs) && d'.regs.busMasterBug == d.regs.busMasterBug && Stopped(p, d.io, d'.io)
    else d' == d
  }

  /** Bus mastering taken away from a driver that is not known to do without stops ioeventfd
      and takes DRIVER_OK out of the status; nothing else is touched. */
  ghost predicate Demastered(p: Plug, d: Device, d': Device) {
    && Stopped(p, d.io, d'.io) && !IsDriverOk(d'.regs.status)
    && d'.regs.status == d.regs.status - (if IsDriverOk(d.regs.status) then DRIVER_OK else 0)
    && d'.regs == d.regs.(busMaster := false, status := d'.regs.status)
  }

  lemma StatusWrites(p: Plug, d: Device, val: nat, out: Outcome, d': Device)
    requires IoportStep(p, d, VIRTIO_PCI_STATUS, val, out, d')
    ensures StatusSet(p, d, val, out, d')
  {
    LowByteKeepsDriverOk(val);
    if IsDriverOk(val) {
      StartsOrNot(p, d.io, out, d'.io);
    } else {
      StopsAll(p, d.io);
    }
  }

  lemma StartsOrNot(p: Plug, io: Ioeventfd, out: Outcome, io': Ioeventfd)
    requires StartedIoeventfd(p, io, out, io')
    ensures Started(p, io, out, io')
  {
  }

  lemma StopsAll(p: Plug, io: Ioeventfd)
    ensures Stopped(p, io, StopIoeventfd(p, io))
  {
  }

  lemma VectorsWritten(d: Device, val: nat)
    ensures ConfigVectorSet(d, val, d.(regs := WriteConfigVector(d.regs, val)))
    ensures QueueVectorSet(d, val, d.(regs := WriteQueueVector(d.regs, val)))
  {
  }

  lemma IoportStepWrites(p: Plug, d: Device, addr: nat, val: nat, out: Outcome, d': Device)
    requires IoportStep(p, d, addr, val, out, d')
    ensures Written(p, d, addr, val, out, d')
  {
    if addr == VIRTIO_PCI_STATUS {
      StatusWrites(p, d, val, out, d');
    } else if addr == VIRTIO_PCI_QUEUE_PFN {
      StopsAll(p, d.io);
    } else {
      VectorsWritten(d, val);
    }
  }

  lemma CommandStops(p: Plug, d: Device)
    ensures !d.regs.busMasterBug ==> Demastered(p, d, CommandWritten(p, d, false))
    ensures d.regs.busMasterBug ==> CommandWritten(p, d, false) == d.(regs := d.regs.(busMaster := false))
    ensures CommandWritten(p, d, true) == d.(regs := d.regs.(busMaster := true))
  {
    DriverOkCleared(d.regs.status);
  }

  /** The status register keeps the DRIVER_OK bit of the value written. */
  lemma LowByteKeepsDriverOk(val: nat)
    ensures IsDriverOk(val % 256) == IsDriverOk(val)
  {
    assert val == val / 256 * 256 + val % 256;
    assert val / 4 == val / 256 * 64 + val % 256 / 4;
  }

  lemma DriverOkCleared(status: nat)
    ensures !IsDriverOk(ClearDriverOk(status))
  {
    if IsDriverOk(status) {
      assert (status - 4) / 4 == status / 4 - 1;
    }
  }

  // ----- the ioeventfd invariant -----

  /** Every host notifier is accounted for: once by ioeventfd if it is started and the
      queue is active, once by the device model if it holds the queue (`held`). */
  ghost predicate HostNotifiersOwned(p: Plug, d: Device, held: set<nat>) {
    && |p.num| == |d.io.host| == |d.io.handler| == VIRTIO_PCI_QUEUE_MAX
    && (forall q :: 0 <= q < VIRTIO_PCI_QUEUE_MAX ==>
          d.io.host[q] == (if d.io.started && Active(p.num, q) then 1 else 0) + if q in held then 1 else 0)
    && (d.io.started ==> p.useIoeventfd && !d.io.disabled)
  }

  /** The device model holds a queue that ioeventfd would take too. */
  ghost predicate HeldActive(p: Plug, held: set<nat>) { exists q :: q in held && q < VIRTIO_PCI_QUEUE_MAX && Active(p.num, q) }

  /** While ioeventfd never runs beside active queues of the device model, QEMU serves
      exactly the active queues, and only while ioeventfd is started. */
  ghost predicate HandlersOwned(p: Plug, d: Device, held: set<nat>) {
    && |p.num| == |d.io.handler| == VIRTIO_PCI_QUEUE_MAX
    && (d.io.started ==> !HeldActive(p, held))
    && forall q :: 0 <= q < VIRTIO_PCI_QUEUE_MAX ==> d.io.handler[q] == (d.io.started && Active(p.num, q))
  }

  /** A notifier is held twice just while ioeventfd runs beside an active queue of the
      device model, and none is ever owed a cleanup. */
  lemma HostCounts(p: Plug, d: Device, held: set<nat>)
    requires HostNotifiersOwned(p, d, held)
    ensures forall q :: 0 <= q < VIRTIO_PCI_QUEUE_MAX ==> 0 <= d.io.host[q] <= 2
    ensures (forall q :: 0 <= q < VIRTIO_PCI_QUEUE_MAX ==> d.io.host[q] < 2) <==> !(d.io.started && HeldActive(p, held))
  {
    if d.io.started && HeldActive(p, held) {
      var q :| q in held && q < VIRTIO_PCI_QUEUE_MAX && Active(p.num, q);
      assert d.io.host[q] == 2;
    }
  }

  // ----- starting and stopping keep the invariants -----

  lemma StopKeeps(p: Plug, d: Device, held: set<nat>, r: Registers)
    requires HostNotifiersOwned(p, d, held)
    ensures StopIoeventfd(p, d.io).doubled == d.io.doubled
    ensures HostNotifiersOwned(p, Device(r, StopIoeventfd(p, d.io)), held)
    ensures HandlersOwned(p, d, held) ==> HandlersOwned(p, Device(r, StopIoeventfd(p, d.io)), held)
  {
  }

  /** The device model holds an active queue that a start with this outcome gets to. */
  ghost predicate MeetsHeld(p: Plug, held: set<nat>, out: Outcome) {
    match out
    case Success => HeldActive(p, held)
    case FailsAt(n) => n < VIRTIO_PCI_QUEUE_MAX && Active(p.num, n) && exists q :: q in held && q < n && Active(p.num, q)
  }

  lemma StartKeeps(p: Plug, d: Device, held: set<nat>, out: Outcome, d': Device)
    requires HostNotifiersOwned(p, d, held)
    requires StartedIoeventfd(p, d.io, out, d'.io)
    ensures d'.io.doubled == (d.io.doubled || (Startable(p, d.io) && MeetsHeld(p, held, out)))
    ensures HostNotifiersOwned(p, d', held)
    ensures HandlersOwned(p, d, held) && (d'.io.started ==> !HeldActive(p, held)) ==> HandlersOwned(p, d', held)
  {
  }
}

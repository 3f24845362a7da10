/** Whole runs of the virtio-pci transport: guest notifiers, irqfds and KVM routes, over a
    device that runs as DeviceRuns says. */
module VirtioPciRuns {
  import opened Options
  import opened VectorCounting
  import opened NotifierSpec
  import opened RegisterSpec
  import opened DeviceRuns

  /** What is live in KVM beside the present table: routes of other devices or left behind,
      and irqfds left behind. */
  datatype Beyond = Beyond(routes: set<int>, irqfds: map<nat, int>)

  datatype Config = Config(nr: nat, hasMask: bool, viaIrqfd: bool, num: seq<nat>, useIoeventfd: bool) {
    function Slot(): Plug { Plug(nr, num, useIoeventfd) }
    function G(b: Beyond): Geometry { Geometry(nr, hasMask, viaIrqfd, num, b.routes, b.irqfds) }
  }

  /** The whole proxy. `mode` is what the guest-notifier caller holds, `hook` the last
      arguments of guest_notifier_mask, `faulted` whether an assertion failed or a user
      count wrapped. */
  datatype Machine = Machine(notif: Notifiers, mode: Mode, hook: seq<bool>, faulted: bool, beyond: Beyond, side: Side) {
    function Vec(): seq<nat> { side.dev.regs.vector }
  }

  datatype Event =
    | OnDevice(e: DeviceEvent)
    | AssignGuests(nvqs: nat, ok: bool)
    | DeassignGuests
    | MaskVector(v: nat)
    | UnmaskVector(v: nat, ok: bool)
    | EnableMsix
    | DisableMsix

  ghost predicate Shaped(c: Config, s: Machine) {
    && WellShaped(c.G(s.beyond), s.Vec(), s.notif) && SideShaped(c.Slot(), s.side) && |s.hook| == VIRTIO_PCI_QUEUE_MAX
    && (s.mode.InUse? ==> |s.mode.bound| == VIRTIO_PCI_QUEUE_MAX)
    && (s.notif.callbacks ==> c.hasMask || s.notif.table.Some?)
  }

  ghost predicate AssignedGuests(c: Config, s: Machine, nvqs: nat, ok: bool, s': Machine)
    requires Shaped(c, s)
  {
    var w := s.notif.msixEnabled && c.viaIrqfd;
    && s' == s.(notif := s'.notif, hook := s'.hook, mode := if ok then InUse(w, s.Vec(), false) else Free)
    && WellShaped(c.G(s.beyond), s.Vec(), s'.notif)
    && s'.notif.msixEnabled == s.notif.msixEnabled && s'.notif.masked == s.notif.masked
    && s'.notif.nvqs == Min(nvqs, VIRTIO_PCI_QUEUE_MAX)
    && AssignResult(c.G(s.beyond), s.Vec(), s.notif, s.hook, w, ok, s'.notif, s'.hook)
  }

  /** What is left behind counts as live beside any later table. A fault ends it all. */
  ghost predicate DeassignedGuests(c: Config, s: Machine, s': Machine)
    requires Shaped(c, s) && s.mode.InUse?
  {
    && s' == s.(notif := s'.notif, hook := s'.hook, faulted := s'.faulted,
                beyond := if s'.faulted then s.beyond else Beyond(s'.notif.routes, s'.notif.irqfds),
                mode := if s'.faulted then Broken else Free)
    && WellShaped(c.G(s.beyond), s.Vec(), s'.notif)
    && s'.notif.msixEnabled == s.notif.msixEnabled && s'.notif.masked == s.notif.masked
    && DeassignResult(c.G(s.beyond), s.Vec(), s.notif, s.hook, s.faulted, s.mode.withIrqfd, s.mode.bound, s'.notif, s'.hook, s'.faulted)
  }

  /** Disabling MSI-X masks every vector without a callback. */
  ghost function SwitchedOff(c: Config, s: Machine): Machine {
    var g := Silenced(c.G(s.beyond), s.notif, s.mode);
    s.(notif := s.notif.(msixEnabled := false, masked := seq(c.nr, _ => true)), beyond := Beyond(g.others, g.left))
  }

  /** Nothing restricts the events: the guest may rewrite vectors, mask, unmask and disable
      MSI-X at any time. */
  ghost predicate Next(c: Config, s: Machine, e: Event, s': Machine)
    requires Shaped(c, s)
  {
    match e
    case OnDevice(d) =>
      && SideShaped(c.Slot(), s'.side) && DeviceNext(c.Slot(), s.notif.msixEnabled, s.side, d, s'.side)
      && s' == s.(side := s'.side, mode := AfterMove(c.G(s.beyond), s.notif, s.mode, s.Vec(), s'.Vec()))
    case AssignGuests(nvqs, ok) =>
      s.mode == Free && AssignedGuests(c, s, nvqs, ok, s')
    case DeassignGuests =>
      s.mode.InUse? && DeassignedGuests(c, s, s')
    case MaskVector(v) =>
      && v < c.nr
      && s' == s.(notif := s'.notif, hook := s'.hook, faulted := s'.faulted, mode := if s'.faulted then Broken else s.mode)
      && MaskStep(c.G(s.beyond), s.Vec(), s.notif, s.faulted, s.hook, s'.notif, s'.faulted, s'.hook, v)
    case UnmaskVector(v, ok) =>
      && v < c.nr
      && s' == s.(notif := s'.notif, hook := s'.hook)
      && UnmaskStep(c.G(s.beyond), s.Vec(), s.notif, s.hook, ok, s'.notif, s'.hook, v)
    case EnableMsix =>
      c.nr > 0 && s' == s.(notif := s.notif.(msixEnabled := true))
    case DisableMsix =>
      s' == SwitchedOff(c, s)
  }

  /** A freshly plugged device. */
  ghost predicate Initial(c: Config, s: Machine) {
    && Shaped(c, s) && SideInitial(c.Slot(), s.side)
    && Unassigned(c.G(s.beyond), s.notif) && s.notif.table == None && s.mode == Free && !s.faulted && s.beyond.irqfds == map[]
  }

  /** The one invariant of every reachable state. */
  ghost predicate Inv(c: Config, s: Machine) { NotifierInv(c, s) && SideInv(c.Slot(), s.side) }

  ghost predicate NotifierInv(c: Config, s: Machine) {
    && Shaped(c, s)
    && Consistent(c.G(s.beyond), s.Vec(), s.notif, s.mode)
    && (s.mode == Broken <==> s.faulted)
  }

  lemma InitialInv(c: Config, s: Machine)
    requires Initial(c, s)
    ensures Inv(c, s)
  {
    SideInitialInv(c.Slot(), s.side);
  }

  lemma MsixSwitchedOff(c: Config, s: Machine)
    requires NotifierInv(c, s)
    ensures NotifierInv(c, SwitchedOff(c, s))
  {
    SilentMaskKeepsConsistent(c.G(s.beyond), s.Vec(), s.notif, s.mode, SwitchedOff(c, s).notif);
  }

  lemma DeassignKeeps(c: Config, s: Machine, s': Machine)
    requires NotifierInv(c, s) && s.mode.InUse? && DeassignedGuests(c, s, s')
    ensures NotifierInv(c, s') && s'.faulted == Faulty(c, s, DeassignGuests)
  {
    if s'.mode == Free {
      LeftBehindIsUnassigned(c.G(s.beyond), s.Vec(), s.notif, s.mode.withIrqfd, s.mode.bound, s'.notif);
    }
  }

  /** The notifier side: consistency is kept up to the first fault. */
  lemma NotifierNextKeeps(c: Config, s: Machine, e: Event, s': Machine)
    requires NotifierInv(c, s) && Next(c, s, e, s') && !e.OnDevice?
    ensures NotifierInv(c, s') && s'.faulted == (s.faulted || Faulty(c, s, e))
  {
    match e
    case MaskVector(v) =>
      MaskKeepsConsistent(c.G(s.beyond), s.Vec(), s.notif, s.mode, s.faulted, s.hook, s'.notif, s'.faulted, s'.hook, v);
    case UnmaskVector(v, ok) =>
      UnmaskKeepsConsistent(c.G(s.beyond), s.Vec(), s.notif, s.mode, s.hook, ok, s'.notif, s'.hook, v);
    case DisableMsix =>
      MsixSwitchedOff(c, s);
    case DeassignGuests =>
      DeassignKeeps(c, s, s');
    case _ =>
  }

  /** A deassignment as in `DeassignFaults`, or, without a mask hook, a vector masked while
      a queue on it has no irqfd on its route. */
  ghost predicate Faulty(c: Config, s: Machine, e: Event)
    requires Shaped(c, s)
  {
    match e
    case DeassignGuests => s.mode.InUse? && DeassignFaults(c.G(s.beyond), s.Vec(), s.notif, s.mode.withIrqfd, s.mode.bound)
    case MaskVector(v) => MaskFaults(c.G(s.beyond), s.Vec(), s.notif, v)
    case _ => false
  }

  /** Every step keeps the invariant, and the flag says whether it faulted. */
  lemma NextKeepsInv(c: Config, s: Machine, e: Event, s': Machine)
    requires Inv(c, s) && Next(c, s, e, s')
    ensures Inv(c, s')
    ensures s'.faulted == (s.faulted || Faulty(c, s, e))
  {
    match e
    case OnDevice(d) =>
      DeviceNextKeeps(c.Slot(), s.notif.msixEnabled, s.side, d, s'.side);
      MoveKeepsConsistent(c.G(s.beyond), s.notif, s.mode, s.Vec(), s'.Vec());
    case _ =>
      NotifierNextKeeps(c, s, e, s');
  }

  // ----- whole runs -----

  ghost predicate IsRun(c: Config, t: seq<Machine>, es: seq<Event>) {
    && |t| == |es| + 1 && Initial(c, t[0])
    && forall i :: 0 <= i < |es| ==> Shaped(c, t[i]) && Next(c, t[i], es[i], t[i + 1])
  }

  /** The invariant holds in every state of every run. */
  lemma {:induction false} RunInv(c: Config, t: seq<Machine>, es: seq<Event>, i: nat)
    requires IsRun(c, t, es) && i <= |es|
    ensures Inv(c, t[i])
  {
    if i == 0 {
      InitialInv(c, t[0]);
    } else {
      RunInv(c, t, es, i - 1);
      NextKeepsInv(c, t[i - 1], es[i - 1], t[i]);
    }
  }

  /** Exactly when an assertion fails or a user count wraps, in any run. */
  lemma {:induction false} RunFaultsExactly(c: Config, t: seq<Machine>, es: seq<Event>, i: nat)
    requires IsRun(c, t, es) && i <= |es|
    ensures t[i].faulted <==> exists j :: 0 <= j < i && Faulty(c, t[j], es[j])
  {
    if i > 0 {
      RunFaultsExactly(c, t, es, i - 1);
      RunInv(c, t, es, i - 1);
      NextKeepsInv(c, t[i - 1], es[i - 1], t[i]);
      if t[i - 1].faulted {
        var j :| 0 <= j < i - 1 && Faulty(c, t[j], es[j]);
        assert 0 <= j < i;
      }
    }
  }

  /** Guest notifiers in use with irqfds, of a class without mask hook. */
  ghost predicate Hookless(c: Config, s: Machine) { s.mode.InUse? && s.mode.withIrqfd && !c.hasMask }

  /** A caller avoids it by assigning without irqfds only when no table is left over, and by
      deassigning while no queue has moved from one vector to another or, without a mask
      hook, no vector has more queues than were bound with it; a guest, without a mask hook,
      by masking the vectors that it moves bound queues from and to. */
  ghost predicate Careful(c: Config, s: Machine, e: Event, s': Machine)
    requires Shaped(c, s)
  {
    match e
    case OnDevice(_) => Hookless(c, s) && |s'.Vec()| == VIRTIO_PCI_QUEUE_MAX ==> !MovesUnmasked(c.G(s.beyond), s.notif, s.Vec(), s'.Vec())
    case AssignGuests(_, _) => !(s.notif.msixEnabled && c.viaIrqfd) ==> s.notif.table == None
    case DeassignGuests =>
      s.mode.InUse? && s.mode.withIrqfd ==>
        var k := Stop(c.num, s.notif.nvqs);
        if c.hasMask then Strayed(s.mode.bound, s.Vec(), k, c.nr) == {} else !Crowded(s.mode.bound, s.Vec(), k, c.nr)
    case _ => true
  }

  ghost predicate Orderly(s: Machine) { !s.faulted && (s.mode.InUse? ==> !s.mode.adrift && (!s.mode.withIrqfd ==> s.notif.table == None)) }

  lemma CarefulStep(c: Config, s: Machine, e: Event, s': Machine)
    requires Inv(c, s) && Inv(c, s') && Next(c, s, e, s') && Careful(c, s, e, s') && Orderly(s)
    requires s'.faulted == (s.faulted || Faulty(c, s, e))
    ensures Orderly(s')
  {
    if Hookless(c, s) {
      InStepIsHeld(c.G(s.beyond), s.Vec(), s.notif, s.mode.bound);
    }
  }

  /** In a run of careful calls no irqfd is ever missing when it is removed and no user
      count ever drops below zero. */
  lemma {:induction false} CarefulRunNeverFaults(c: Config, t: seq<Machine>, es: seq<Event>, i: nat)
    requires IsRun(c, t, es) && i <= |es|
    requires forall j :: 0 <= j < |es| ==> Careful(c, t[j], es[j], t[j + 1])
    ensures Orderly(t[i]) && !t[i].faulted
  {
    if i > 0 {
      CarefulRunNeverFaults(c, t, es, i - 1);
      RunInv(c, t, es, i - 1);
      NextKeepsInv(c, t[i - 1], es[i - 1], t[i]);
      CarefulStep(c, t[i - 1], es[i - 1], t[i]);
    }
  }

  /** A deassignment that does not fault leaves behind exactly what `DeassignLeaves` says;
      while irqfds are in step, nothing more if and only if no bound queue has lost its
      vector meanwhile or, without a mask hook, every vector has as many queues as before. */
  lemma DeassignReturnsExactly(c: Config, s: Machine, s': Machine)
    requires Inv(c, s) && s.mode.InUse? && Next(c, s, DeassignGuests, s') && !Faulty(c, s, DeassignGuests)
    ensures s'.mode == Free && DeassignLeaves(c.G(s.beyond), s.Vec(), s.notif, s.mode.withIrqfd, s.mode.bound, s'.notif)
    ensures !s.mode.adrift ==>
      (s'.beyond == s.beyond <==> VectorsKept(c.G(s.beyond), s.Vec(), s.notif, s.mode.withIrqfd, s.mode.bound))
  {
    if !s.mode.adrift {
      NothingLeftExactly(c.G(s.beyond), s.Vec(), s.notif, s.mode.withIrqfd, s.mode.bound, s'.notif);
    }
  }

  /** Disabling MSI-X leaves behind, of a class without mask hook that has irqfds in step,
      exactly those of queues on unmasked vectors: nothing if and only if there is none. */
  lemma DisableLeavesExactly(c: Config, s: Machine, s': Machine)
    requires Inv(c, s) && Next(c, s, DisableMsix, s')
    ensures !Hookless(c, s) ==> s'.beyond == s.beyond
    ensures Hookless(c, s) && !s.mode.adrift ==>
      && (forall q: nat :: q in s'.beyond.irqfds <==>
            q in s.beyond.irqfds || (q < Stop(c.num, s.notif.nvqs) && s.Vec()[q] < c.nr && !s.notif.masked[s.Vec()[q]]))
      && (s'.beyond == s.beyond <==>
            forall q: nat :: q < Stop(c.num, s.notif.nvqs) && s.Vec()[q] < c.nr ==> s.notif.masked[s.Vec()[q]])
  {
    if Hookless(c, s) && !s.mode.adrift {
      var g, vec, k := c.G(s.beyond), s.Vec(), Stop(c.num, s.notif.nvqs);
      SilencedExactly(g, vec, s.notif, s.mode.bound);
      assert c.G(s'.beyond) == Silenced(g, s.notif, s.mode);
      assert Hot(vec, k, HotVectors(g, s.notif.masked)) == {} <==> forall q: nat :: q < k && vec[q] < c.nr ==> s.notif.masked[vec[q]] by {
        forall q: nat ensures q in Hot(vec, k, HotVectors(g, s.notif.masked)) <==> q < k && vec[q] < c.nr && !s.notif.masked[vec[q]] {}
      }
    }
  }

  /** Deassigned while every vector is masked, a class without mask hook keeps its irqfds. */
  lemma SilentDeassign(c: Config, s: Machine, s': Machine)
    requires Inv(c, s) && Hookless(c, s) && AllMasked(s.notif) && Next(c, s, DeassignGuests, s')
    ensures s'.faulted <==> Crowded(s.mode.bound, s.Vec(), Stop(c.num, s.notif.nvqs), c.nr)
    ensures !s'.faulted ==> s'.mode == Free && s'.notif.irqfds == s.notif.irqfds
    ensures !s'.faulted ==> s'.notif.routes == s.beyond.routes + Shed(s.notif.table.value, s.Vec(), Stop(c.num, s.notif.nvqs))
  {
    NextKeepsInv(c, s, DeassignGuests, s');
    assert Unheld(c.G(s.beyond), s.Vec(), s.notif) == {};
    assert HotBelow(s.Vec(), Stop(c.num, s.notif.nvqs), s.notif.masked, c.nr) == {};
  }

  // ----- irqfds left behind -----

  ghost predicate Settled(s: Machine) { !s.faulted && (s.mode.InUse? ==> !s.mode.adrift) }

  /** An irqfd left behind stays, as long as irqfds are in step and nothing faults. */
  lemma LeftStays(c: Config, s: Machine, e: Event, s': Machine)
    requires Inv(c, s) && Next(c, s, e, s') && Settled(s) && !s'.faulted
    ensures forall q :: q in s.beyond.irqfds ==> q in s'.beyond.irqfds && s'.beyond.irqfds[q] == s.beyond.irqfds[q]
  {
    NextKeepsInv(c, s, e, s');
    if e.DeassignGuests? {
      NothingLeftExactly(c.G(s.beyond), s.Vec(), s.notif, s.mode.withIrqfd, s.mode.bound, s'.notif);
    }
  }

  lemma {:induction false} LeftStaysOn(c: Config, t: seq<Machine>, es: seq<Event>, i: nat, j: nat, q: nat)
    requires IsRun(c, t, es) && i <= j <= |es| && q in t[i].beyond.irqfds && !t[j].faulted
    requires forall l :: i <= l < j ==> Settled(t[l])
    ensures q in t[j].beyond.irqfds
  {
    if i < j {
      RunInv(c, t, es, j - 1);
      LeftStaysOn(c, t, es, i, j - 1, q);
      LeftStays(c, t[j - 1], es[j - 1], t[j]);
    }
  }

  /** So from then on no assignment with irqfds succeeds that would bind the queue to a
      vector of its own, unless a class without mask hook has that vector masked. */
  lemma LeftRefusesAssignment(c: Config, t: seq<Machine>, es: seq<Event>, i: nat, j: nat, q: nat)
    requires IsRun(c, t, es) && i <= j < |es| && q in t[i].beyond.irqfds
    requires forall l :: i <= l <= j ==> Settled(t[l])
    requires es[j].AssignGuests? && t[j].notif.msixEnabled && c.viaIrqfd
    requires q < Stop(c.num, Min(es[j].nvqs, VIRTIO_PCI_QUEUE_MAX)) && t[j].Vec()[q] < c.nr
    requires c.hasMask || !t[j].notif.masked[t[j].Vec()[q]]
    ensures !es[j].ok && t[j + 1].mode == Free && t[j + 1].beyond == t[j].beyond
    ensures Unassigned(c.G(t[j].beyond), t[j + 1].notif)
  {
    LeftStaysOn(c, t, es, i, j, q);
    RunInv(c, t, es, j);
    if es[j].ok {
      AssignedAvoidsLeft(c.G(t[j].beyond), t[j].Vec(), t[j + 1].notif, q);
    }
  }

  /** In every reachable state without a fault each vector's user count is its number of
      bound queues, and the live routes are those of the vectors in use and those beside.
      Beside the irqfds left behind, and while irqfds are in step, a queue has an irqfd exactly
      when it is assigned with irqfds on a valid vector: the one it was bound with or, if the
      class cannot mask, its present one, unmasked. */
  lemma IrqfdsExactly(c: Config, s: Machine)
    requires Inv(c, s) && Settled(s)
    ensures forall q: nat :: q in s.notif.irqfds && q !in s.beyond.irqfds <==>
      && s.mode.InUse? && s.mode.withIrqfd && q < Stop(c.num, s.notif.nvqs)
      && if c.hasMask then s.mode.bound[q] < c.nr else s.Vec()[q] < c.nr && !s.notif.masked[s.Vec()[q]]
    ensures forall q :: q in s.beyond.irqfds ==> q in s.notif.irqfds && s.notif.irqfds[q] == s.beyond.irqfds[q]
    ensures s.mode.InUse? && s.mode.withIrqfd ==>
      && (forall v :: 0 <= v < c.nr ==> s.notif.table.value[v].users == UsersOf(s.mode.bound, Stop(c.num, s.notif.nvqs), v))
      && s.notif.routes - s.beyond.routes == Own(s.notif.table.value)
    ensures !(s.mode.InUse? && s.mode.withIrqfd) ==> s.notif.routes == s.beyond.routes
  {
    if s.mode.InUse? && s.mode.withIrqfd {
      var g, k := c.G(s.beyond), Stop(c.num, s.notif.nvqs);
      var u := Ruling(g, s.mode.bound, s.Vec());
      forall q: nat ensures q in s.notif.irqfds && q !in s.beyond.irqfds <==> q < k && u[q] < c.nr && (c.hasMask || !s.notif.masked[u[q]]) {
        assert q in s.notif.irqfds && q !in s.beyond.irqfds <==> q in Hot(u, k, HotVectors(g, s.notif.masked));
      }
    }
  }

  // ----- queues held back -----

  /** No queue in use is held back by the mask hook while its vector is unmasked. */
  ghost predicate Heard(c: Config, s: Machine)
    requires Shaped(c, s)
  {
    c.hasMask && s.mode.InUse? ==>
      forall q :: 0 <= q < Stop(c.num, s.notif.nvqs) && s.Vec()[q] < c.nr && !s.notif.masked[s.Vec()[q]] ==> !s.hook[q]
  }

  /** A queue in use that is held back moves to an unmasked vector. */
  ghost predicate MovesHeldBack(c: Config, s: Machine, e: Event, s': Machine)
    requires Shaped(c, s)
  {
    e.OnDevice? && c.hasMask && s.mode.InUse? && |s'.Vec()| == VIRTIO_PCI_QUEUE_MAX
    && exists q :: 0 <= q < Stop(c.num, s.notif.nvqs) && s'.Vec()[q] < c.nr && !s.notif.masked[s'.Vec()[q]] && s'.Vec()[q] != s.Vec()[q] && s.hook[q]
  }

  lemma HeardMove(c: Config, s: Machine, e: Event, s': Machine)
    requires Shaped(c, s) && Shaped(c, s') && Next(c, s, e, s') && Heard(c, s) && e.OnDevice?
    ensures Heard(c, s') <==> !MovesHeldBack(c, s, e, s')
  {
    if c.hasMask && s.mode.InUse? {
      var k := Stop(c.num, s.notif.nvqs);
      if q :| 0 <= q < k && s'.Vec()[q] < c.nr && !s.notif.masked[s'.Vec()[q]] && s'.Vec()[q] != s.Vec()[q] && s.hook[q] {
        assert s'.hook[q];
      }
      if q :| 0 <= q < k && s'.Vec()[q] < c.nr && !s'.notif.masked[s'.Vec()[q]] && s'.hook[q] {
        assert s'.Vec()[q] != s.Vec()[q];
      }
    }
  }

  lemma HeardMasked(c: Config, s: Machine, v: nat, s': Machine)
    requires Inv(c, s) && Shaped(c, s') && Next(c, s, MaskVector(v), s') && Heard(c, s)
    ensures Heard(c, s')
  {
    if c.hasMask && s'.mode.InUse? && !s.notif.masked[v] {
      assert s'.hook == SetHook(s.hook, OnVector(s.Vec(), Stop(c.num, s.notif.nvqs), v), true);
    }
  }

  lemma HeardUnmasked(c: Config, s: Machine, v: nat, ok: bool, s': Machine)
    requires Inv(c, s) && Shaped(c, s') && Next(c, s, UnmaskVector(v, ok), s') && Heard(c, s)
    ensures Heard(c, s')
  {
    if c.hasMask && s.mode.InUse? {
      if ok && s.notif.masked[v] {
        assert s'.hook == SetHook(s.hook, OnVector(s.Vec(), Stop(c.num, s.notif.nvqs), v), false);
      }
    }
  }

  /** Every step but such a move keeps all queues heard. */
  lemma HeardKeptExactly(c: Config, s: Machine, e: Event, s': Machine)
    requires Inv(c, s) && Next(c, s, e, s') && Heard(c, s)
    ensures Inv(c, s') && (Heard(c, s') <==> !MovesHeldBack(c, s, e, s'))
  {
    NextKeepsInv(c, s, e, s');
    match e
    case OnDevice(_) => HeardMove(c, s, e, s');
    case MaskVector(v) => HeardMasked(c, s, v, s');
    case UnmaskVector(v, ok) => HeardUnmasked(c, s, v, ok, s');
    case _ =>
  }

  lemma {:induction false} RunHeard(c: Config, t: seq<Machine>, es: seq<Event>, i: nat)
    requires IsRun(c, t, es) && i <= |es|
    requires forall j :: 0 <= j < |es| ==> !MovesHeldBack(c, t[j], es[j], t[j + 1])
    ensures Shaped(c, t[i]) && Heard(c, t[i])
  {
    if i > 0 {
      RunHeard(c, t, es, i - 1);
      RunInv(c, t, es, i - 1);
      HeardKeptExactly(c, t[i - 1], es[i - 1], t[i]);
    }
  }

  // ----- the ways it goes wrong -----

  function Fresh(nr: nat): Machine {
    Machine(
      Notifiers(None, 0, seq(VIRTIO_PCI_QUEUE_MAX, _ => 0), seq(VIRTIO_PCI_QUEUE_MAX, _ => false), {}, map[], false, false, seq(nr, _ => true)),
      Free, seq(VIRTIO_PCI_QUEUE_MAX, _ => false), false, Beyond({}, map[]), Side(FreshDevice(nr), {}))
  }

  /** A failed assignment leaves its table behind. If the guest then disables MSI-X, the
      next assignment succeeds without irqfds, and deassigning releases irqfds and users
      that were never taken. */
  lemma StaleTableFaults() returns (c: Config, t: seq<Machine>, es: seq<Event>)
    ensures IsRun(c, t, es) && t[|es|].faulted
  {
    c, t, es := StaleTableRun();
    var s4 := t[4];
    var s5 := s4.(mode := InUse(false, s4.Vec(), false),
      notif := s4.notif.(callbacks := true, guest := s4.notif.guest[0 := 1], guestHandler := s4.notif.guestHandler[0 := true]));
    var s6 := s4.(notif := s4.notif.(table := None), hook := s4.hook[0 := true], faulted := true, mode := Broken);
    StaleTableAssigned(c, s4, s5);
    t, es := OneMore(c, t, es, AssignGuests(1, true), s5);
    StaleTableDeassigned(c, s5, s6);
    t, es := OneMore(c, t, es, DeassignGuests, s6);
  }

  /** The same up to the guest's disabling MSI-X. */
  lemma StaleTableRun() returns (c: Config, t: seq<Machine>, es: seq<Event>)
    ensures c == Config(1, true, true, Queues(), true) && IsRun(c, t, es) && |es| == 4 && Shaped(c, t[4]) && Stop(c.num, 1) == 1
    ensures t[4].mode == Free && !t[4].notif.msixEnabled && t[4].notif.table.Some? && t[4].notif.nvqs == 1
    ensures Unassigned(c.G(t[4].beyond), t[4].notif) && !t[4].hook[0] && t[4].Vec()[0] == 0
  {
    c := Config(1, true, true, Queues(), true);
    var s0 := Fresh(1);
    var s1 := s0.(notif := s0.notif.(msixEnabled := true));
    var s2 := s1.(side := s1.side.(dev := s1.side.dev.(regs := WriteQueueVector(s1.side.dev.regs, 0))));
    var s3 := s2.(notif := s2.notif.(table := Some([VirtIOIRQFD(0, 0)]), nvqs := 1));
    var s4 := s3.(notif := s3.notif.(msixEnabled := false, masked := seq(1, _ => true)));
    t := [s0, s1, s2, s3, s4];
    es := [EnableMsix, OnDevice(RegisterWrite(VIRTIO_MSI_QUEUE_VECTOR, 0, Success)), AssignGuests(1, false), DisableMsix];
    assert Stop(c.num, 1) == 1;
    assert Next(c, s0, es[0], s1);
    assert Next(c, s1, es[1], s2);
    StaleTableLeft(c, s2, s3);
    assert Next(c, s3, es[3], s4);
  }

  lemma StaleTableLeft(c: Config, s: Machine, s': Machine)
    requires c == Config(1, true, true, Queues(), true) && Shaped(c, s) && s.mode == Free && s.notif.msixEnabled
    requires Unassigned(c.G(s.beyond), s.notif) && s' == s.(notif := s.notif.(table := Some([VirtIOIRQFD(0, 0)]), nvqs := 1))
    ensures Next(c, s, AssignGuests(1, false), s')
  {
  }

  lemma StaleTableAssigned(c: Config, s: Machine, s': Machine)
    requires c == Config(1, true, true, Queues(), true) && Shaped(c, s) && s.mode == Free && !s.notif.msixEnabled
    requires s.notif.table.Some? && s.notif.nvqs == 1 && Stop(c.num, 1) == 1 && Unassigned(c.G(s.beyond), s.notif) && !s.hook[0]
    requires s' == s.(mode := InUse(false, s.Vec(), false),
      notif := s.notif.(callbacks := true, guest := s.notif.guest[0 := 1], guestHandler := s.notif.guestHandler[0 := true]))
    ensures Next(c, s, AssignGuests(1, true), s')
  {
  }

  lemma StaleTableDeassigned(c: Config, s: Machine, s': Machine)
    requires c == Config(1, true, true, Queues(), true) && Shaped(c, s) && s.mode == InUse(false, s.Vec(), false)
    requires s.notif.table.Some? && s.notif.nvqs == 1 && Stop(c.num, 1) == 1 && s.Vec()[0] == 0
    requires s' == s.(notif := s'.notif, hook := s.hook[0 := true], faulted := true, mode := Broken) && !s.notif.msixEnabled
    requires s'.notif == s.notif.(table := None, callbacks := false, guest := s'.notif.guest, guestHandler := s'.notif.guestHandler)
    requires WellShaped(c.G(s.beyond), s.Vec(), s'.notif) && GuestUpTo(s'.notif, 0, false)
    ensures Next(c, s, DeassignGuests, s')
  {
    assert 0 in BoundQueues(s.Vec(), 1, 1);
  }

  /** A run that ends with the first queue assigned. */
  lemma AssignedRun(hasMask: bool) returns (c: Config, t: seq<Machine>, es: seq<Event>)
    ensures c == Config(2, hasMask, true, Queues(), true) && IsRun(c, t, es) && |es| == 3
    ensures Shaped(c, t[2]) && t[2] == PreparedFirst() && t[3] == FirstAssigned(c, t[2]) && Stop(c.num, 1) == 1
  {
    c := Config(2, hasMask, true, Queues(), true);
    var s0 := Fresh(2);
    var s1 := s0.(notif := s0.notif.(msixEnabled := true));
    var s2 := PreparedFirst();
    var s3 := FirstAssigned(c, s2);
    t := [s0, s1, s2, s3];
    es := [EnableMsix, OnDevice(RegisterWrite(VIRTIO_MSI_QUEUE_VECTOR, 0, Success)), AssignGuests(1, true)];
    assert Stop(c.num, 1) == 1;
    assert Next(c, s0, es[0], s1);
    assert Next(c, s1, es[1], s2);
    FirstQueueAssigned(c, s2);
  }

  /** MSI-X enabled, and the first queue on vector 0. */
  function PreparedFirst(): Machine {
    var s := Fresh(2);
    s.(notif := s.notif.(msixEnabled := true), side := s.side.(dev := s.side.dev.(regs := WriteQueueVector(s.side.dev.regs, 0))))
  }

  /** A guest that moves a queue to another vector while guest notifiers are in use makes
      the deassignment look for an irqfd on a route that never had it. */
  lemma StrayedQueueFaults() returns (c: Config, t: seq<Machine>, es: seq<Event>)
    ensures IsRun(c, t, es) && t[|es|].faulted
  {
    c, t, es := AssignedRun(true);
    var s3 := t[3];
    var s4 := s3.(side := s3.side.(dev := s3.side.dev.(regs := WriteQueueVector(s3.side.dev.regs, 1))));
    var s5 := s4.(mode := Broken, faulted := true,
      notif := s4.notif.(table := None, callbacks := false, guest := t[2].notif.guest));
    t, es := t + [s4, s5], es + [OnDevice(RegisterWrite(VIRTIO_MSI_QUEUE_VECTOR, 1, Success)), DeassignGuests];
    assert Next(c, s3, es[3], s4);
    assert 0 in Strayed(s4.mode.bound, s4.Vec(), 1, 2);
    assert Next(c, s4, es[4], s5);
  }

  /** Without a mask hook, a guest that moves a queue to an unmasked vector makes the next
      masking of that vector look for an irqfd that was never attached. */
  lemma MovedUnmaskedFaults() returns (c: Config, t: seq<Machine>, es: seq<Event>)
    ensures IsRun(c, t, es) && t[|es|].faulted && es[|es| - 1] == MaskVector(1)
  {
    c, t, es := AssignedRun(false);
    var s3 := t[3];
    var s4 := s3.(notif := s3.notif.(masked := s3.notif.masked[1 := false]));
    var s5 := s4.(mode := s4.mode.(adrift := true), side := s4.side.(dev := s4.side.dev.(regs := WriteQueueVector(s4.side.dev.regs, 1))));
    var s6 := s5.(mode := Broken, faulted := true, notif := s5.notif.(masked := s5.notif.masked[1 := true]));
    SecondUnmasked(c, t[2], s3, s4);
    t, es := OneMore(c, t, es, UnmaskVector(1, true), s4);
    assert Next(c, s4, OnDevice(RegisterWrite(VIRTIO_MSI_QUEUE_VECTOR, 1, Success)), s5);
    t, es := OneMore(c, t, es, OnDevice(RegisterWrite(VIRTIO_MSI_QUEUE_VECTOR, 1, Success)), s5);
    assert 0 in OnVector(s5.Vec(), 1, 1) && 0 !in s5.notif.irqfds;
    t, es := OneMore(c, t, es, MaskVector(1), s6);
  }

  /** With a mask hook, a queue whose vector was masked and that moves to an unmasked one
      stays held back. */
  lemma MovedStaysHeldBack() returns (c: Config, t: seq<Machine>, es: seq<Event>)
    ensures IsRun(c, t, es) && Inv(c, t[|es|]) && !Heard(c, t[|es|])
  {
    c, t, es := AssignedRun(true);
    var s3 := t[3];
    var s4 := s3.(notif := s3.notif.(masked := s3.notif.masked[0 := false]));
    var s5 := s4.(notif := s4.notif.(masked := s4.notif.masked[0 := true]), hook := s4.hook[0 := true]);
    var s6 := s5.(notif := s5.notif.(masked := s5.notif.masked[1 := false]));
    var s7 := s6.(side := s6.side.(dev := s6.side.dev.(regs := WriteQueueVector(s6.side.dev.regs, 1))));
    FirstHeldBack(c, t[2], s3, s4, s5, s6);
    t, es := OneMore(c, t, es, UnmaskVector(0, true), s4);
    t, es := OneMore(c, t, es, MaskVector(0), s5);
    t, es := OneMore(c, t, es, UnmaskVector(1, true), s6);
    assert Next(c, s6, OnDevice(RegisterWrite(VIRTIO_MSI_QUEUE_VECTOR, 1, Success)), s7);
    t, es := OneMore(c, t, es, OnDevice(RegisterWrite(VIRTIO_MSI_QUEUE_VECTOR, 1, Success)), s7);
    RunInv(c, t, es, |es|);
    assert s7.Vec()[0] == 1 && s7.hook[0];
  }

  lemma FirstHeldBack(c: Config, s2: Machine, s3: Machine, s4: Machine, s5: Machine, s6: Machine)
    requires c == Config(2, true, true, Queues(), true) && Shaped(c, s2) && Stop(c.num, 1) == 1 && s2.notif.msixEnabled
    requires AllMasked(s2.notif) && s2.Vec()[0] == 0 && s3 == FirstAssigned(c, s2) && !s2.hook[0]
    requires s4 == s3.(notif := s3.notif.(masked := s3.notif.masked[0 := false]))
    requires s5 == s4.(notif := s4.notif.(masked := s4.notif.masked[0 := true]), hook := s4.hook[0 := true])
    requires s6 == s5.(notif := s5.notif.(masked := s5.notif.masked[1 := false])) && !s2.faulted
    ensures Shaped(c, s3) && Shaped(c, s4) && Shaped(c, s5) && Shaped(c, s6)
    ensures Next(c, s3, UnmaskVector(0, true), s4) && Next(c, s4, MaskVector(0), s5) && Next(c, s5, UnmaskVector(1, true), s6)
  {
    assert OnVector(s3.Vec(), 1, 0) == {0} && OnVector(s3.Vec(), 1, 1) == {};
    assert s4.hook == SetHook(s3.hook, {0}, false) && s5.hook == SetHook(s4.hook, {0}, true) && s6.hook == SetHook(s5.hook, {}, false);
  }

  lemma SecondUnmasked(c: Config, s2: Machine, s3: Machine, s4: Machine)
    requires c == Config(2, false, true, Queues(), true) && Shaped(c, s2) && Stop(c.num, 1) == 1 && s2.notif.msixEnabled
    requires AllMasked(s2.notif) && s2.Vec()[0] == 0 && s3 == FirstAssigned(c, s2)
    requires s4 == s3.(notif := s3.notif.(masked := s3.notif.masked[1 := false]))
    ensures Shaped(c, s3) && Next(c, s3, UnmaskVector(1, true), s4)
  {
    assert OnVector(s3.Vec(), 1, 1) == {};
  }

  /** The first queue assigned, on route 5; without a mask hook its masked vector has no irqfd yet. */
  ghost function FirstAssigned(c: Config, s: Machine): Machine
    requires |s.notif.guest| > 0
  {
    s.(mode := InUse(true, s.Vec(), false),
       notif := s.notif.(table := Some([VirtIOIRQFD(5, 1), VirtIOIRQFD(0, 0)]), nvqs := 1, routes := {5},
                         irqfds := if c.hasMask then map[0 := 5] else map[],
                         callbacks := true, guest := s.notif.guest[0 := 1]))
  }

  lemma FirstQueueAssigned(c: Config, s: Machine)
    requires c == Config(2, c.hasMask, true, Queues(), true) && Shaped(c, s) && s.mode == Free && s.notif.msixEnabled
    requires Stop(c.num, 1) == 1 && s.beyond == Beyond({}, map[]) && AllMasked(s.notif)
    requires Unassigned(c.G(s.beyond), s.notif) && s.Vec()[0] == 0
    ensures Next(c, s, AssignGuests(1, true), FirstAssigned(c, s))
  {
    var s' := FirstAssigned(c, s);
    var t := s'.notif.table.value;
    assert t[0] == VirtIOIRQFD(5, 1) && t[1] == VirtIOIRQFD(0, 0);
    assert UsersOf(s.Vec(), 1, 0) == 1 && UsersOf(s.Vec(), 1, 1) == 0;
    assert 5 in Own(t) && Own(t) == {5};
    assert Hot(s.Vec(), 1, HotVectors(c.G(s.beyond), s.notif.masked)) == if c.hasMask then {0} else {};
  }

  /** Without a mask hook, disabling MSI-X while a vector in use is unmasked leaves its irqfd
      attached for good, on a route that the deassignment gives up. */
  lemma SilentDisableLeaves() returns (c: Config, t: seq<Machine>, es: seq<Event>)
    ensures IsRun(c, t, es) && t[|es|].mode == Free && !t[|es|].faulted
    ensures t[|es|].notif.irqfds == map[0 := 5] && t[|es|].notif.routes == {}
  {
    c, t, es := AssignedRun(false);
    var s2, s3 := t[2], t[3];
    var s4 := s3.(notif := s3.notif.(masked := s3.notif.masked[0 := false], irqfds := map[0 := 5]));
    var s5 := s4.(notif := s4.notif.(msixEnabled := false, masked := seq(2, _ => true)), beyond := Beyond({}, map[0 := 5]));
    var s6 := s5.(mode := Free, notif := s5.notif.(table := None, callbacks := false, guest := s2.notif.guest, routes := {}));
    FirstUnmasked(c, s2, s3, s4);
    t, es := OneMore(c, t, es, UnmaskVector(0, true), s4);
    FirstSwitchedOff(c, s4, s5);
    t, es := OneMore(c, t, es, DisableMsix, s5);
    DeassignedLeft(c, s5, s6);
    t, es := OneMore(c, t, es, DeassignGuests, s6);
  }

  lemma OneMore(c: Config, t: seq<Machine>, es: seq<Event>, e: Event, s: Machine) returns (t': seq<Machine>, es': seq<Event>)
    requires IsRun(c, t, es) && Shaped(c, t[|es|]) && Next(c, t[|es|], e, s)
    ensures t' == t + [s] && es' == es + [e] && IsRun(c, t', es')
  {
    t', es' := t + [s], es + [e];
  }

  lemma FirstSwitchedOff(c: Config, s: Machine, s': Machine)
    requires c == Config(2, false, true, Queues(), true) && Shaped(c, s) && Stop(c.num, 1) == 1
    requires s.mode == InUse(true, s.Vec(), false) && s.Vec()[0] == 0 && s.notif.nvqs == 1 && !s.notif.masked[0]
    requires s.notif.irqfds == map[0 := 5] && s.beyond == Beyond({}, map[])
    requires s' == s.(notif := s.notif.(msixEnabled := false, masked := seq(2, _ => true)), beyond := Beyond({}, map[0 := 5]))
    ensures Next(c, s, DisableMsix, s')
  {
  }

  lemma DeassignedLeft(c: Config, s: Machine, s': Machine)
    requires c == Config(2, false, true, Queues(), true) && Shaped(c, s) && s.mode == InUse(true, s.Vec(), false) && s.notif.irqfds == s.beyond.irqfds
    requires s' == s.(mode := Free, notif := s.notif.(table := None, callbacks := false, guest := s'.notif.guest, routes := {}))
    requires !s.faulted && AllMasked(s.notif) && s.beyond.routes == {} && (forall q :: 0 <= q < |s.notif.guestHandler| ==> !s.notif.guestHandler[q])
    requires |s'.notif.guest| == VIRTIO_PCI_QUEUE_MAX && forall q :: 0 <= q < |s'.notif.guest| ==> s'.notif.guest[q] == 0
    ensures Next(c, s, DeassignGuests, s')
  {
    var k := Stop(c.num, s.notif.nvqs);
    assert Unheld(c.G(s.beyond), s.Vec(), s.notif) == {} && HotBelow(s.Vec(), k, s.notif.masked, 2) == {};
    if Consistent(c.G(s.beyond), s.Vec(), s.notif, s.mode.(adrift := true)) {
      assert Shed(TableOf(s.notif.table), s.Vec(), k) == {};
    }
  }

  lemma FirstUnmasked(c: Config, s2: Machine, s3: Machine, s4: Machine)
    requires c == Config(2, false, true, Queues(), true) && Shaped(c, s2) && Stop(c.num, 1) == 1 && s2.notif.msixEnabled
    requires AllMasked(s2.notif) && s2.Vec()[0] == 0 && s3 == FirstAssigned(c, s2)
    requires s4 == s3.(notif := s3.notif.(masked := s3.notif.masked[0 := false], irqfds := map[0 := 5]))
    ensures Shaped(c, s3) && Next(c, s3, UnmaskVector(0, true), s4)
  {
    assert OnVector(s3.Vec(), 1, 0) == {0};
  }
}

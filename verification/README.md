# A verified model of the virtio-crypto stack and its chat

The repository runs an encrypted chat over a paravirtual `/dev/crypto`. Three of its
parts carry state that is easy to get wrong, and this project models those three and
proves what their code keeps true.

**The virtio-pci transport** (`VectorCounting`, `NotifierSpec`, `RegisterSpec`,
`MigrationSpec`, `VirtioPci`, `DeviceRuns`, `VirtioPciRuns`, `VirtioPciSystem`).
`VirtioPci.VirtIOPCIProxy` is the proxy with its fields and its methods, loop by loop: guest
notifiers, reference-counted KVM routes, irqfds, MSI-X use counts, ioeventfd, the register
window, saving and loading. Every call that can fail is nondeterministic, its failures are
counted, and each operation is proved to fail only when one of them has. The `Spec` modules
say on plain values what the methods must achieve. `DeviceRuns` puts the operations on
registers, ioeventfd and migration into a state machine whose invariant holds in every
reachable state, whatever the guest notifiers do; `VirtioPciRuns` adds the guest notifiers,
irqfds and routes; `VirtioPciSystem` proves that each operation on the object is a step of
these machines. The assertions of the source and the underflow of a user count are a flag,
`faulted`; a host notifier initialised or cleaned up twice is another, `doubled`. Neither
machine restricts the guest: it may rewrite vectors, mask, unmask and disable MSI-X at any
time. These properties are false of the code as it stands, each with a concrete run and the
exact condition:

- a failed assignment leaves `vector_irqfd` set; if MSI-X is then disabled, the next
  assignment succeeds without irqfds and deassigning it releases what was never taken
  (`StaleTableFaults`);
- with a mask hook, a guest that moves a queue to another vector while guest notifiers are
  in use makes the deassignment look for an irqfd that is not there (`StrayedQueueFaults`);
  without one, a queue moved to an unmasked vector makes the next masking of that vector do
  so (`MovedUnmaskedFaults`). `RunFaultsExactly` says when anything of this happens in a
  run, and `CarefulRunNeverFaults` how callers and guests avoid it;
- a guest that takes a vector away while it is in use leaves its irqfd or its route behind
  (`DeassignReturnsExactly`), and one that disables MSI-X while a vector in use is unmasked
  leaves the irqfds on it, without a mask hook (`DisableLeavesExactly`,
  `SilentDisableLeaves`). What is left behind stays, and no later assignment succeeds that
  would give the queue an irqfd again (`LeftStaysOn`, `LeftRefusesAssignment`);
- with a mask hook, a queue that is held back because its vector was masked stays held back
  when the guest moves it to an unmasked one (`MovedStaysHeldBack`, `HeardKeptExactly`);
- giving back one of two host notifiers re-enables ioeventfd, whose next start initialises
  the notifier still held a second time, whether that start succeeds or fails at a later
  queue (`EarlyRestartInitialisesTwice`, `FailedRestartInitialisesTwice`,
  `FaultPossibleExactly`, `RunHostFaultExactly`).

**The paravirtual device** (`CryptoDevice`, `CryptoCodec`, `CryptoDriver`, `CryptoFile`,
`CryptoProtocol`, `CryptoRefinement`, `CryptoFds`). `CryptoDriver` and `CryptoFile` are the
guest's request building, the host's element handler and the file operations as they run
one at a time; `CryptoProtocol` is the step system of any number of guest threads, one lock,
one virtqueue and one host handler. `CryptoRefinement` proves that every run is a run
of an atomic device serving the requests in the order in which the lock was taken, and
`CryptoFds` that host file descriptors are conserved.

**The chat** (`ChatFraming`, `ChatIO`, `ChatRelay`, `Cbc`). `ChatFraming` is the wire format
and what a receiver makes of any prefix of a stream; `ChatIO` is the reading, writing and
ciphering code; `ChatRelay` is the relay's threads, semaphores and single writes as a step
system; `Cbc` shows that cipher block chaining (section 6.2 of NIST SP 800-38A) over any
block permutation is a cipher the encrypted mode can rely on. That every recipient of an
encrypted broadcast can read it is false; `RelayExactly` and `RecipientExactly` give
the exact conditions and `SecondRecipientCanFail` a chained block cipher under which it fails.

## Reading the model

- `faulted` is set where an assertion of the source would fail or `users` wrap below zero.
- `guestNotifier[q]` and `hostNotifier[q]` count initialisations minus cleanups of queue `q`.
- `Holding(..., k)` is the state after `k` processed queues: counts grown by the number of
  those queues mapped to each vector, routes exactly those of the vectors in use, irqfds
  on exactly the bound queues.
- `Live` is what the notifier loops work on: table, routes, irqfds, mask hooks, fault flag.
- `Consistent(..., m)` is the notifier invariant in mode `Free`, `InUse(withIrqfd, bound,
  adrift)` with the vectors the queues were bound with, or `Broken` after a fault, which ends
  what is said of a run. `adrift` is set once a class without mask hook moves a bound queue
  from or to an unmasked vector: from then on nothing is said of its irqfds until the next
  deassignment, but user counts, routes and faults are followed.
- `Strayed` are queues moved from the vector they were bound with to another valid one,
  `Dropped` those left without one; `Crowded` says that some vector has more queues than
  were bound with it, `Unheld` are queues on an unmasked vector without an irqfd on its route.
- `others` and `left`, or `Beyond`, are the routes and irqfds live in KVM beside the present
  table: those of other devices and those left behind.
- `Outcome` says whether a start of ioeventfd succeeds or at which queue it fails; `doubled`
  records that some host notifier has been initialised while it was, or cleaned up while it
  was not, also within a call.
- `refused` counts requests that KVM has refused, `failedInits` failed initialisations of a
  notifier, `errors` failed reads and writes of a connection, and `refused`, on the host side
  of the crypto device, failed calls of the host's device, all of which are in `log`. They
  influence nothing.
- `Heard` says that no queue in use is held back by `guest_notifier_mask` while its vector is
  unmasked.
- `strayed`, in the crypto device, records that the handler looked for a buffer that is
  missing or of another kind; `Overran`, in the chat, that a buffer was exceeded. The model
  stops there.
- In the step systems a step is one action between which other threads may run; fields
  described as kept for the proofs record history and do not influence any step.

## Model

| member | source | states |
|---|---|---|
| `VirtioPci.VirtIOPCIProxy.constructor` | virtio-crypto/qemu/hw/virtio/virtio-pci.h:88-100 | a plugged device satisfies every invariant |
| `VirtioPci.VirtIOPCIProxy.VqVectorUse` | virtio-crypto/qemu/hw/virtio/virtio-pci.c:496-513 | the first user of a vector adds a route unlike every live one; a failure changes nothing; it fails exactly when KVM refuses the route |
| `VirtioPci.VirtIOPCIProxy.VqVectorRelease` | virtio-crypto/qemu/hw/virtio/virtio-pci.c:515-522 | the last user of a vector takes its route away; releasing an unused vector faults |
| `VirtioPci.VirtIOPCIProxy.IrqfdUse` | virtio-crypto/qemu/hw/virtio/virtio-pci.c:524-535 | a queue without irqfd gets one on its vector's route, or, exactly when KVM refuses, nothing changes |
| `VirtioPci.VirtIOPCIProxy.IrqfdRelease` | virtio-crypto/qemu/hw/virtio/virtio-pci.c:537-549 | the removal faults exactly when the queue has no irqfd on that route |
| `VirtioPci.VirtIOPCIProxy.VectorUse` | virtio-crypto/qemu/hw/virtio/virtio-pci.c:551-598 | all or nothing: each count grows by the queues mapped to the vector, or counts, routes and irqfds are as before, whichever step of whichever queue failed; it fails if and only if KVM has refused a request, so queues without a vector never make it fail |
| `VirtioPci.VirtIOPCIProxy.VectorRelease` | virtio-crypto/qemu/hw/virtio/virtio-pci.c:600-624 | gives everything back without a fault where it was taken; on an unused table faults exactly when some queue is bound; where irqfds were bound with other vectors exactly when a queue has strayed to another valid one; without a mask hook exactly when more queues are on a vector than it has users |
| `VirtioPci.VirtIOPCIProxy.VqVectorUnmask` | virtio-crypto/qemu/hw/virtio/virtio-pci.c:626-662 | one queue's irqfd or unmask hook, or no change when KVM refuses, and only then |
| `VirtioPci.VirtIOPCIProxy.VqVectorMask` | virtio-crypto/qemu/hw/virtio/virtio-pci.c:664-679 | the hook is told, or the irqfd goes; a missing irqfd faults |
| `VirtioPci.VirtIOPCIProxy.VectorUnmask` | virtio-crypto/qemu/hw/virtio/virtio-pci.c:681-710 | every queue of the vector, or none: a failure leaves routes, table and irqfds as they were; it fails if and only if KVM refuses |
| `VirtioPci.VirtIOPCIProxy.VectorMask` | virtio-crypto/qemu/hw/virtio/virtio-pci.c:712-727 | exactly the irqfds of the vector's queues go, and a missing one faults |
| `VirtioPci.VirtIOPCIProxy.MsixSetVectorNotifiers` | virtio-crypto/qemu/hw/virtio/virtio-pci.c:845-848 | irqfds, or unmask hooks, on the queues of every unmasked vector; or, if and only if KVM refuses, the irqfds as before and no queue unmasked anew |
| `VirtioPci.VirtIOPCIProxy.MsixUnsetVectorNotifiers` | virtio-crypto/qemu/hw/virtio/virtio-pci.c:815 | the irqfds in place on queues of unmasked vectors go, and it faults exactly when one is missing |
| `VirtioPci.VirtIOPCIProxy.SetGuestNotifier` | virtio-crypto/qemu/hw/virtio/virtio-pci.c:762-787 | one queue's notifier and handler, and without MSI-X the hook; it fails exactly when the notifier cannot be initialised, and then changes nothing |
| `VirtioPci.VirtIOPCIProxy.SetGuestNotifiers` | virtio-crypto/qemu/hw/virtio/virtio-pci.c:795-869 | assigning succeeds for every queue or leaves nothing assigned; deassigning faults exactly as `DeassignFaults` says (a left-over table with a bound queue; with a mask hook a queue whose vector has become another valid one; without one a vector with more queues than were bound with it, or a queue on an unmasked vector without its irqfd), and otherwise leaves exactly the irqfds and routes of `DeassignLeaves`; assigning fails if and only if KVM refuses a request or a notifier cannot be initialised, and leaves a table behind in the former case; the mask hook is told of exactly the queues it should, on assigning and on deassigning |
| `VirtioPci.VirtIOPCIProxy.Assign` | virtio-crypto/qemu/hw/virtio/virtio-pci.c:823-868 | the same for the assigning half and its error exits |
| `VirtioPci.VirtIOPCIProxy.Deassign` | virtio-crypto/qemu/hw/virtio/virtio-pci.c:813-832 | the same for the deassigning half |
| `VirtioPci.VirtIOPCIProxy.BindVectors` | virtio-crypto/qemu/hw/virtio/virtio-pci.c:834-860 | vectors and irqfds bound and hooks told for every queue, or, if and only if KVM refuses, no route and no irqfd left |
| `VirtioPci.VirtIOPCIProxy.UndoGuestNotifiers` | virtio-crypto/qemu/hw/virtio/virtio-pci.c:862-867 | the undo loop cleans up exactly the notifiers initialised so far |
| `VirtioPci.VirtIOPCIProxy.GuestMask` | virtio-crypto/qemu/hw/virtio/virtio-pci.c:712-727 | masking a vector at any time faults exactly when, without a mask hook, a queue on it lacks an irqfd on its route, and otherwise keeps the notifier invariant |
| `VirtioPci.VirtIOPCIProxy.GuestUnmask` | virtio-crypto/qemu/hw/virtio/virtio-pci.c:681-710 | unmasking keeps the notifier invariant, also when it fails; it fails if and only if KVM refuses |
| `VirtioPci.VirtIOPCIProxy.SetHostNotifierInternal` | virtio-crypto/qemu/hw/virtio/virtio-pci.c:190-215 | one initialisation or cleanup, or no change on failure; cleaning up cannot fail; `doubled` records an initialisation on top of another or a cleanup of nothing; it fails exactly when the notifier cannot be initialised |
| `VirtioPci.VirtIOPCIProxy.StartIoeventfd` | virtio-crypto/qemu/hw/virtio/virtio-pci.c:217-252 | a host notifier on every active queue, or, after a failure at queue n, none and no handler below n; `doubled` records every notifier initialised on top of another, also in a start that fails; it fails if and only if a notifier cannot be initialised |
| `VirtioPci.VirtIOPCIProxy.StopIoeventfdNow` | virtio-crypto/qemu/hw/virtio/virtio-pci.c:254-273 | exactly the active queues lose their host notifier, and their handlers, and no other |
| `VirtioPci.VirtIOPCIProxy.SetHostNotifier` | virtio-crypto/qemu/hw/virtio/virtio-pci.c:871-887 | a device model's own notifier stops ioeventfd first; which notifiers gain or lose an initialisation, queue by queue |
| `VirtioPci.VirtIOPCIProxy.IoportWrite` | virtio-crypto/qemu/hw/virtio/virtio-pci.c:275-352 | register by register, what a write leaves: a vector register shows the vector if it exists and none otherwise, with the use moved from the old one to the new; status shows the byte written and starts or stops ioeventfd; zero to status or queue address clears all; nothing else is touched |
| `VirtioPci.VirtIOPCIProxy.ConfigWrite` | virtio-crypto/qemu/hw/virtio/virtio-pci.c:430-462 | the same behind the window, whose size depends on MSI-X: without it the vector registers cannot be written |
| `VirtioPci.VirtIOPCIProxy.WriteConfig` | virtio-crypto/qemu/hw/virtio/virtio-pci.c:474-488 | taking bus mastering away stops ioeventfd and clears DRIVER_OK exactly if the driver is not known to do without it, and touches nothing else |
| `VirtioPci.VirtIOPCIProxy.VmstateChange` | virtio-crypto/qemu/hw/virtio/virtio-pci.c:889-905 | starting the machine starts ioeventfd and notes a ready driver without bus mastering; stopping it stops ioeventfd |
| `VirtioPci.VirtIOPCIProxy.Reset` | virtio-crypto/qemu/hw/virtio/virtio-pci.c:1035-1043 | registers cleared, no use counted, ioeventfd stopped, the note on the driver gone |
| `VirtioPci.VirtIOPCIProxy.SaveConfig` | virtio-crypto/qemu/hw/virtio/virtio-pci.c:129-138 | appends what `Load` expects of the configuration vector |
| `VirtioPci.VirtIOPCIProxy.SaveQueue` | virtio-crypto/qemu/hw/virtio/virtio-pci.c:140-147 | appends what `Load` expects of one queue |
| `VirtioPci.VirtIOPCIProxy.LoadConfig` | virtio-crypto/qemu/hw/virtio/virtio-pci.c:149-170 | reads it back and recounts from zero; an out-of-range vector is an error |
| `VirtioPci.VirtIOPCIProxy.LoadQueue` | virtio-crypto/qemu/hw/virtio/virtio-pci.c:172-188 | reads one queue's vector back and counts it |
| `NotifierSpec.UseKeepsMatch` | virtio-crypto/qemu/hw/virtio/virtio-pci.c:496-513 | the live routes stay exactly those of the vectors in use, pairwise distinct |
| `NotifierSpec.ReleaseKeepsMatch` | virtio-crypto/qemu/hw/virtio/virtio-pci.c:515-522 | the same for a release, which never underflows a used vector |
| `NotifierSpec.HoldingLess` | virtio-crypto/qemu/hw/virtio/virtio-pci.c:586-597 | undoing one queue finds its irqfd and its user there, and gives back exactly these |
| `NotifierSpec.UseThenRelease` | virtio-crypto/qemu/hw/virtio/virtio-pci.c:576-582 | a vector taken and given back because the irqfd failed disturbs nothing held, also when queues share it |
| `NotifierSpec.UseReleaseRoundTrip` | virtio-crypto/qemu/hw/virtio/virtio-pci.c:551-624 | releasing what was used restores counts, routes and irqfds |
| `NotifierSpec.ReleasedSheds` | virtio-crypto/qemu/hw/virtio/virtio-pci.c:600-624 | releasing leaves exactly the routes of the vectors that had more users than queues released |
| `NotifierSpec.StrayedFaults` | virtio-crypto/qemu/hw/virtio/virtio-pci.c:600-624 | a queue moved to another valid vector finds no irqfd on its route, or no user there |
| `NotifierSpec.UnstrayedThere` | virtio-crypto/qemu/hw/virtio/virtio-pci.c:600-624 | a queue that kept its vector finds its user and its irqfd, whatever other queues did |
| `NotifierSpec.DroppedStay` | virtio-crypto/qemu/hw/virtio/virtio-pci.c:612-615 | with a mask hook releasing skips queues that lost their vector: exactly their irqfds and routes stay behind, beside what was left before |
| `NotifierSpec.NothingLeftExactly` | virtio-crypto/qemu/hw/virtio/virtio-pci.c:813-821 | a deassignment without a fault leaves nothing more if and only if every bound queue still has its vector or, without a mask hook, every vector as many queues as were bound with it |
| `NotifierSpec.MaskFaultsExactly` | virtio-crypto/qemu/hw/virtio/virtio-pci.c:664-727 | masking a vector fails the assertion if and only if the class has no mask hook and a queue on the vector has no irqfd on its route |
| `NotifierSpec.MaskKeepsConsistent` | virtio-crypto/qemu/hw/virtio/virtio-pci.c:664-727 | masking keeps irqfds on exactly the queues of unmasked vectors, and never faults while they are in step |
| `NotifierSpec.UnmaskKeepsConsistent` | virtio-crypto/qemu/hw/virtio/virtio-pci.c:626-710 | the same for unmasking |
| `NotifierSpec.MoveKeepsConsistent` | virtio-crypto/qemu/hw/virtio/virtio-pci.c:339-346 | irqfds stay in step when queues change their vectors, with a mask hook always, without one as long as the vectors moved from and to are masked |
| `NotifierSpec.SilentMaskKeepsConsistent` | virtio-crypto/qemu/hw/virtio/virtio-pci.c:664-679 | when every vector is masked without a callback, the notifier invariant holds on, with the irqfds of a class without mask hook counted as left behind |
| `NotifierSpec.SilencedExactly` | virtio-crypto/qemu/hw/virtio/virtio-pci.c:664-679 | these are exactly the irqfds of queues on unmasked vectors |
| `NotifierSpec.AssignedAvoidsLeft` | virtio-crypto/qemu/hw/virtio/virtio-pci.c:524-535 | a queue with an irqfd left behind is never assigned with irqfds on a vector that would give it another |
| `RegisterSpec.WriteConfigVectorKeepsAccounting` | virtio-crypto/qemu/hw/virtio/virtio-pci.c:332-338 | each use count stays one for the configuration vector plus one per queue mapped |
| `RegisterSpec.WriteQueueVectorCounted` | virtio-crypto/qemu/hw/virtio/virtio-pci.c:339-346 | the counts survive a queue-vector write if and only if the selector names a queue or the value is refused |
| `RegisterSpec.ResetKeepsAccounting` | virtio-crypto/qemu/hw/virtio/virtio-pci.c:289-295 | resetting registers and counts together restores the accounting |
| `RegisterSpec.IoportStepWrites` | virtio-crypto/qemu/hw/virtio/virtio-pci.c:275-352 | the same as laws on the fields: vectors read back as written or as none, status and selector as written, counts move by one use |
| `RegisterSpec.CommandStops` | virtio-crypto/qemu/hw/virtio/virtio-pci.c:474-488 | which fields a write to the command register changes, for every value of the bus-master note |
| `RegisterSpec.StopKeeps` | virtio-crypto/qemu/hw/virtio/virtio-pci.c:254-273 | after stopping, only the device model's notifiers are left, and none was cleaned up twice |
| `RegisterSpec.StartKeeps` | virtio-crypto/qemu/hw/virtio/virtio-pci.c:217-252 | after starting, each active queue has exactly one more, and started implies enabled; a notifier is doubled if and only if the start, successful or not, gets to an active queue that the device model holds |
| `MigrationSpec.Be16RoundTrip` | virtio-crypto/qemu/hw/virtio/virtio-pci.c:129-188 | a vector is saved as two bytes, the high one first, and reads back as saved |
| `MigrationSpec.LoadSavedQueues` | virtio-crypto/qemu/hw/virtio/virtio-pci.c:140-188 | loading saved queues succeeds, consumes exactly what was saved and counts each |
| `MigrationSpec.MigrationRestores` | virtio-crypto/qemu/hw/virtio/virtio-pci.c:129-188 | saving any reachable state and loading it into a fresh device succeeds and restores vectors and counts, completely if and only if no queue beyond the saved ones has a vector |
| `MigrationSpec.LoadQueuesSound` | virtio-crypto/qemu/hw/virtio/virtio-pci.c:172-188 | any stream at all is rejected if and only if it holds an out-of-range vector |
| `MigrationSpec.LoadEstablishesAccounting` | virtio-crypto/qemu/hw/virtio/virtio-pci.c:149-188 | any stream that loads leaves correct use counts |
| `MigrationSpec.LoadKeepsAccountingExactly` | virtio-crypto/qemu/hw/virtio/virtio-pci.c:149-188 | a load leaves use counts right if and only if no queue beyond the loaded ones has a vector: it forgets their uses |
| `DeviceRuns.SideInitialInv` | virtio-crypto/qemu/hw/virtio/virtio-pci.c:965-1007 | a fresh device satisfies the device invariant |
| `DeviceRuns.DeviceNextKeeps` | virtio-crypto/qemu/hw/virtio/virtio-pci.c:129-1043 | every operation of the device keeps use counts and host notifiers in order, whatever the guest notifiers do |
| `DeviceRuns.DeviceRunInv` | virtio-crypto/qemu/hw/virtio/virtio-pci.c:129-1043 | so they are in every reachable state; queues may change vectors at any time |
| `DeviceRuns.RunStartedReady` | virtio-crypto/qemu/hw/virtio/virtio-pci.c:889-905 | where running is reported only with DRIVER_OK, ioeventfd is started only while it is set |
| `DeviceRuns.RunStartedMastered` | virtio-crypto/qemu/hw/virtio/virtio-pci.c:474-488 | under the same rule ioeventfd is started only while the device may master the bus or its driver is known not to ask for it |
| `DeviceRuns.FaultStepExactly` | virtio-crypto/qemu/hw/virtio/virtio-pci.c:217-252 | a step doubles a notifier if and only if it starts ioeventfd (a DRIVER_OK status write or a running machine, enabled, not disabled, not started) and gets to an active queue that the device model holds, whether it then succeeds or fails at a later queue |
| `DeviceRuns.StartPossible` | virtio-crypto/qemu/hw/virtio/virtio-pci.c:217-252 | every start can succeed and can fail at any active queue |
| `DeviceRuns.FaultReachableExactly` | virtio-crypto/qemu/hw/virtio/virtio-pci.c:217-252 | with a given outcome a step can double a notifier if and only if it is such a start |
| `DeviceRuns.FaultPossibleExactly` | virtio-crypto/qemu/hw/virtio/virtio-pci.c:217-252 | with some outcome, if and only if ioeventfd may start while the device model holds an active queue: what a caller can check beforehand |
| `DeviceRuns.RunHostFaultExactly` | virtio-crypto/qemu/hw/virtio/virtio-pci.c:190-273 | over whole runs: a notifier has been doubled, within a call or between calls, if and only if there was such a start |
| `DeviceRuns.DisciplinedRun` | virtio-crypto/qemu/hw/virtio/virtio-pci.c:190-273 | in runs without such a start none is ever initialised or cleaned up twice, and exactly the active queues are served |
| `DeviceRuns.AnyStateMigrates` | virtio-crypto/qemu/hw/virtio/virtio-pci.c:129-188 | every state of every run can be saved and loaded into a fresh device, completely if and only if no queue beyond the saved ones has a vector |
| `DeviceRuns.EarlyRestartInitialisesTwice` | virtio-crypto/qemu/hw/virtio/virtio-pci.c:871-887 | a concrete run whose successful start initialises a notifier twice |
| `DeviceRuns.FailedRestartInitialisesTwice` | virtio-crypto/qemu/hw/virtio/virtio-pci.c:228-249 | a concrete run whose start does so and then fails, leaving no trace in the counts |
| `VirtioPciRuns.InitialInv` | virtio-crypto/qemu/hw/virtio/virtio-pci.c:965-1007 | a fresh device satisfies the invariant |
| `VirtioPciRuns.NextKeepsInv` | virtio-crypto/qemu/hw/virtio/virtio-pci.c:129-1043 | every operation keeps the one invariant of notifiers and device up to the first fault, and faults exactly as `Faulty` says; vectors may move and MSI-X be disabled at any time |
| `VirtioPciRuns.RunInv` | virtio-crypto/qemu/hw/virtio/virtio-pci.c:129-1043 | so it holds in every state of every run |
| `VirtioPciRuns.RunFaultsExactly` | virtio-crypto/qemu/hw/virtio/virtio-pci.c:537-549 | in any run an assertion fails or a count wraps if and only if a deassignment meets what `DeassignFaults` says, or, without a mask hook, a vector is masked while a queue on it has no irqfd on its route |
| `VirtioPciRuns.CarefulRunNeverFaults` | virtio-crypto/qemu/hw/virtio/virtio-pci.c:795-869 | no fault where callers assign without irqfds only when no table is left and deassign while no queue has moved to another vector (without a mask hook: no vector has more queues than were bound with it), and guests of a class without mask hook mask the vectors they move bound queues from and to |
| `VirtioPciRuns.DeassignReturnsExactly` | virtio-crypto/qemu/hw/virtio/virtio-pci.c:813-832 | what a deassignment without a fault leaves, MSI-X disabled or not; while irqfds are in step, nothing more if and only if no bound queue has lost its vector or, without a mask hook, every vector has as many queues as before |
| `VirtioPciRuns.DisableLeavesExactly` | virtio-crypto/qemu/hw/virtio/virtio-pci.c:813-832 | disabling MSI-X leaves behind, without a mask hook, exactly the irqfds of queues on unmasked vectors, and nothing if and only if there is none |
| `VirtioPciRuns.SilentDeassign` | virtio-crypto/qemu/hw/virtio/virtio-pci.c:813-832 | a deassignment after that keeps those irqfds, and faults if and only if some vector has more queues than were bound with it |
| `VirtioPciRuns.LeftStaysOn` | virtio-crypto/qemu/hw/virtio/virtio-pci.c:524-549 | an irqfd left behind stays for the rest of a run, while irqfds are in step and nothing faults |
| `VirtioPciRuns.LeftRefusesAssignment` | virtio-crypto/qemu/hw/virtio/virtio-pci.c:524-598 | as long as it does, no assignment with irqfds succeeds that would bind the queue to a valid vector, unmasked if the class has no mask hook: it fails and leaves nothing assigned |
| `VirtioPciRuns.IrqfdsExactly` | virtio-crypto/qemu/hw/virtio/virtio-pci.c:524-727 | user counts are those of the bound queues and live routes those of the vectors in use; beside irqfds left behind, and while they are in step, a queue has an irqfd if and only if it is assigned with irqfds and bound to a valid vector or, without a mask hook, is now on a valid and unmasked one |
| `VirtioPciRuns.HeardKeptExactly` | virtio-crypto/qemu/hw/virtio/virtio-pci.c:626-727 | with a mask hook every step, failed ones included, keeps all queues on unmasked vectors from being held back, if and only if it does not move a queue that is held back to an unmasked vector |
| `VirtioPciRuns.RunHeard` | virtio-crypto/qemu/hw/virtio/virtio-pci.c:626-869 | so in runs without such a move no queue in use is held back while its vector is unmasked |
| `VirtioPciRuns.StaleTableFaults` | virtio-crypto/qemu/hw/virtio/virtio-pci.c:862-868 | a concrete run that fails the assertion |
| `VirtioPciRuns.StrayedQueueFaults` | virtio-crypto/qemu/hw/virtio/virtio-pci.c:339-346 | a concrete run: a queue vector rewritten while guest notifiers are in use fails the assertion at deassignment |
| `VirtioPciRuns.MovedUnmaskedFaults` | virtio-crypto/qemu/hw/virtio/virtio-pci.c:664-679 | a concrete run without mask hook: a queue moved to an unmasked vector fails the assertion when that is masked |
| `VirtioPciRuns.MovedStaysHeldBack` | virtio-crypto/qemu/hw/virtio/virtio-pci.c:339-346 | a concrete run with such a move, after which a queue stays held back on an unmasked vector |
| `VirtioPciRuns.SilentDisableLeaves` | virtio-crypto/qemu/hw/virtio/virtio-pci.c:813-821 | a concrete run without mask hook: MSI-X disabled while a vector in use is unmasked leaves an irqfd attached to a route that is gone |
| `VirtioPciSystem.PluggedDevice.WriteRegister` | virtio-crypto/qemu/hw/virtio/virtio-pci.c:430-462 | any register write on the object is a step of the device machine and of the whole one, and keeps both invariants |
| `VirtioPciSystem.PluggedDevice.WriteCommand` | virtio-crypto/qemu/hw/virtio/virtio-pci.c:474-488 | so is a write to the command register |
| `VirtioPciSystem.PluggedDevice.RunOrStop` | virtio-crypto/qemu/hw/virtio/virtio-pci.c:889-905 | so are starting and stopping the machine, with or without DRIVER_OK |
| `VirtioPciSystem.PluggedDevice.ResetAll` | virtio-crypto/qemu/hw/virtio/virtio-pci.c:1035-1043 | so is a device reset, at any time |
| `VirtioPciSystem.PluggedDevice.TakeHostNotifier` | virtio-crypto/qemu/hw/virtio/virtio-pci.c:871-887 | so is a device model taking a host notifier, whether it succeeds or not; it fails exactly when the notifier cannot be initialised |
| `VirtioPciSystem.PluggedDevice.GiveHostNotifierBack` | virtio-crypto/qemu/hw/virtio/virtio-pci.c:871-887 | so is giving it back, which cannot fail |
| `VirtioPciSystem.PluggedDevice.AssignGuestNotifiers` | virtio-crypto/qemu/hw/virtio/virtio-pci.c:795-869 | so is assigning guest notifiers, whether it succeeds or not; it fails if and only if KVM refuses a request or a notifier cannot be initialised |
| `VirtioPciSystem.PluggedDevice.DeassignGuestNotifiers` | virtio-crypto/qemu/hw/virtio/virtio-pci.c:795-869 | so is deassigning them, whatever happened to the vectors and to MSI-X meanwhile |
| `VirtioPciSystem.PluggedDevice.Mask` | virtio-crypto/qemu/hw/virtio/virtio-pci.c:712-727 | so is masking a vector, faulting or not |
| `VirtioPciSystem.PluggedDevice.Unmask` | virtio-crypto/qemu/hw/virtio/virtio-pci.c:681-710 | so is unmasking one; it fails if and only if KVM refuses |
| `VirtioPciSystem.PluggedDevice.EnableMsixTable` | virtio-crypto/qemu/hw/virtio/virtio-pci.c:801-802 | enabling MSI-X at any time keeps the whole invariant |
| `VirtioPciSystem.PluggedDevice.DisableMsixTable` | virtio-crypto/qemu/hw/virtio/virtio-pci.c:813-832 | disabling MSI-X without any callback is a step of the machine for every class, never faults and touches no irqfd |
| `VirtioPciSystem.PluggedDevice.DisableThenDeassign` | virtio-crypto/qemu/hw/virtio/virtio-pci.c:813-821 | without a mask hook, disabling MSI-X and deassigning faults if and only if some vector has more queues than were bound with it; otherwise it leaves exactly the irqfds of queues on unmasked vectors, and nothing more if and only if there is none |
| `VirtioPciSystem.PluggedDevice.SaveVectors` | virtio-crypto/qemu/hw/virtio/virtio-pci.c:129-147 | saving appends exactly the stream `MigrationRestores` speaks of |
| `VirtioPciSystem.PluggedDevice.LoadVectorsFrom` | virtio-crypto/qemu/hw/virtio/virtio-pci.c:149-188 | loading any stream into any state fails, or leaves use counts right if and only if no queue beyond the loaded ones has a vector, and is then a step of the machine |
| `CryptoDriver.GuestKernel.BuildOpenOrClose` | virtio-crypto/guest/crypto-chrdev.c:97-112 | new distinct buffers holding the request, and a list of exactly two entries |
| `CryptoDriver.GuestKernel.BuildIoctl` | virtio-crypto/guest/crypto-chrdev.c:200-316 | the same for each command, within the eight entries of `sgs` |
| `CryptoDriver.FillIoctl` | virtio-crypto/guest/crypto-chrdev.c:223-316 | the counters place every buffer where the host looks for it |
| `CryptoDriver.EncodedIsDecodable` | virtio-crypto/qemu/hw/char/virtio-crypto.c:69-132 | every list the driver builds has buffers of the right kind at the positions the host reads |
| `CryptoDriver.HostBackend.VqHandleOutput` | virtio-crypto/qemu/hw/char/virtio-crypto.c:46-142 | one element per notification is popped, served and pushed: exactly the request decoded from it by position is put to the host's device, once, and the reply buffers hold exactly the host's answer; `strayed` is set exactly by an element without the buffers it looks for |
| `CryptoDriver.CryptoDriverData.Probe` | virtio-crypto/guest/crypto-module.c:66-73 | a device more, with the next minor; minors stay distinct through 2^32 probes |
| `CryptoDriver.CryptoDriverData.Remove` | virtio-crypto/guest/crypto-module.c:88-91 | exactly that device goes, and minors stay distinct |
| `CryptoDriver.CryptoDriverData.GetByMinor` | virtio-crypto/guest/crypto-chrdev.c:35-54 | finds the first device of a minor if there is one, which is the only one until the counter has gone round |
| `CryptoFile.CryptoChrdev.Transact` | virtio-crypto/guest/crypto-chrdev.c:324-333 | pushing, notifying and taking the reply is one step of the atomic device; the reply is in the request's own buffers, nothing else is touched, and the host finds every buffer it looks for; the host is asked for exactly this request, up to its pointers |
| `CryptoFile.CryptoChrdev.Open` | virtio-crypto/guest/crypto-chrdev.c:61-140 | -ENODEV exactly without a device of the minor, asking the host nothing and forgetting two buffers; otherwise success with whatever fd the host returned, -1 included; the host has been asked to open once, and its answer is in the file |
| `CryptoFile.CryptoChrdev.Release` | virtio-crypto/guest/crypto-chrdev.c:142-191 | releasing closes the fd in the file: this is the one request put to the host |
| `CryptoFile.CryptoChrdev.Ioctl` | virtio-crypto/guest/crypto-chrdev.c:193-370 | the caller gets the device's answer to its own request, but for the key pointer; exactly the buffer of the return value is never freed; the host has been asked for exactly that request, once, up to its pointers, and never for an unsupported one |
| `CryptoCodec.EncodeFits` | virtio-crypto/guest/crypto-chrdev.c:200-316 | lists never exceed their arrays, use every buffer once, and CIOCCRYPT uses six out and two in |
| `CryptoCodec.PointersDoNotMatter` | virtio-crypto/qemu/hw/char/virtio-crypto.c:100-127 | the pointers the host overwrites do not influence the answer |
| `CryptoCodec.HandleIsAtomic` | virtio-crypto/qemu/hw/char/virtio-crypto.c:66-132 | decoding by position is one step of the device on the very request encoded, replying into its own buffers |
| `CryptoCodec.ServedIsMade` | virtio-crypto/qemu/hw/char/virtio-crypto.c:66-132 | serving an encoded request puts that request to the host, up to its pointers, and the answer is what the caller will see |
| `CryptoCodec.AtomicIsHandled` | virtio-crypto/qemu/hw/char/virtio-crypto.c:66-132 | and every step of the device on it can come about that way |
| `CryptoCodec.ReadBackObserves` | virtio-crypto/guest/crypto-chrdev.c:333-362 | what is copied back is the answer, with the key pointer clobbered |
| `CryptoDevice.CipherCallLeavesNoTrace` | socket-common.c:155-217 | open, session, one operation, end of session and close leave the device as it was and deliver the cipher's output |
| `CryptoDevice.CipherCallAmongOthers` | socket-common.c:155-217 | the same with any requests of other callers in between: the call gets its output, leaves no descriptor behind and changes no other |
| `CryptoProtocol.InitialRefines` | virtio-crypto/guest/crypto-chrdev.c:387-416 | the idle system refines the atomic device |
| `CryptoRefinement.HostHandleRefines` | virtio-crypto/qemu/hw/char/virtio-crypto.c:66-132 | serving the popped element is the step at which the request takes effect |
| `CryptoRefinement.PushRefines` | virtio-crypto/guest/crypto-chrdev.c:324-327 | a pushed request is the only one in the queue, so its ignored error cannot occur |
| `CryptoRefinement.GetBufRefines` | virtio-crypto/guest/crypto-chrdev.c:327-330 | the element taken back, whose token is ignored, is the thread's own |
| `CryptoRefinement.FinishReads` | virtio-crypto/guest/crypto-chrdev.c:333-362 | a finished call returns the answer to its own request |
| `CryptoRefinement.StepRefines` | virtio-crypto/guest/crypto-chrdev.c:324-370 | every step is a step of the atomic device or changes nothing there |
| `CryptoRefinement.RunRefines` | virtio-crypto/qemu/hw/char/virtio-crypto.c:46-142 | every run is a run of the atomic device in lock-acquisition order with every caller's own results |
| `CryptoRefinement.AtMostOneOutstanding` | virtio-crypto/qemu/hw/char/virtio-crypto.c:63-66 | at most one request is in the queue, one notification is pending exactly when there is one to pop, and the ring of 128 always has room |
| `CryptoRefinement.StepMakesProgress` | virtio-crypto/guest/crypto-chrdev.c:324-330 | every step but the start of a call brings the calls in progress nearer their end |
| `CryptoRefinement.NeverStuck` | virtio-crypto/guest/crypto-chrdev.c:324-333 | while a call is in progress some step other than a new call is possible |
| `CryptoRefinement.FiniteCallsFinish` | virtio-crypto/guest/crypto-chrdev.c:324-333 | once no more calls start, only boundedly many steps remain and they end with every call finished, in whatever order threads run |
| `CryptoFds.StepKeepsFds` | virtio-crypto/guest/crypto-chrdev.c:97-133 | every step keeps each opened host fd with the one guest file it belongs to |
| `CryptoFds.RunKeepsFds` | virtio-crypto/guest/crypto-chrdev.c:97-189 | so it holds along every run |
| `CryptoFds.OwnedFd` | virtio-crypto/guest/crypto-chrdev.c:193-222 | an ioctl works on the fd that belongs to its own file, or on none after a failed open |
| `CryptoFds.HostFdsConserved` | virtio-crypto/guest/crypto-chrdev.c:97-189 | the host fds opened through the device are exactly the nonnegative fds in live files, no two files share one, and all others are untouched |
| `ChatFraming.Be32RoundTrip` | socket-common.c:112-116 | the length word has its high byte first and reads back as written |
| `ChatFraming.PrefixSafety` | socket-common.c:19-74 | wherever a connection is cut, exactly the messages whose frames arrived whole are received |
| `ChatFraming.RoundTripExactly` | socket-common.c:37-74 | a whole stream arrives as sent if and only if no message is empty |
| `ChatFraming.BlockPrefixSafety` | socket-common.c:42-58 | the same for encrypted blocks, cut anywhere |
| `ChatFraming.FirstRecipientTransparent` | socket-server-irc.c:65-128 | decrypting and re-encrypting gives the first recipient the very bytes that were sent |
| `ChatFraming.RelayExactly` | socket-server-irc.c:115-136 | all recipients get those bytes if and only if there is at most one or the ciphertext begins with the frame |
| `ChatFraming.RecipientExactly` | socket-server-irc.c:119-128 | recipient number k decodes the message if and only if it is the first or the block sent before begins with the frame |
| `ChatIO.InsistWrite` | socket-common.c:4-17 | all the bytes are written whatever the short writes, or a proper part before an error; it gives up exactly when a write fails |
| `ChatIO.InsistRead` | socket-common.c:19-35 | exactly the bytes asked for, or the connection ended before them, or a read failed: each told apart exactly |
| `ChatIO.CipherOnce` | socket-common.c:155-217 | the cipher's output under the chat's key and vector; host fds and sessions are left as found; it fails if and only if the device refuses one of the requests |
| `ChatIO.Encrypt` | socket-common.c:139-219 | the buffer becomes the ciphertext of its first bytes filled up with '0'; more than 256 of them are an overrun; it ends the process if and only if the device refuses |
| `ChatIO.Decrypt` | socket-common.c:221-296 | the buffer becomes its plaintext; it fails if and only if the device refuses |
| `ChatIO.SendLine` | socket-common.c:102-137 | one frame or block for prompt, line and newline, or a proper part of it on an error; nothing for an empty line; an overrun exactly when they do not fit 300 bytes or the block; the process ends if and only if a write or the device has failed |
| `ChatIO.GetAndPrintPlain` | socket-common.c:59-99 | prints exactly the next message, or finds that none arrives whole and prints nothing; an overrun only when more of a message arrives than the buffer holds, and then always but for an error; the process ends if and only if a read or write has failed |
| `ChatIO.GetAndPrintEncrypted` | socket-common.c:42-99 | the same for a block, telling a length beyond the buffer apart; the process ends if and only if a read, a write or the device has failed |
| `ChatIO.ReceiveUntilGone` | socket-common.c:59-99 | in plaintext mode a client prints exactly what its stream decodes to, whatever the stream and the short reads, up to an overrun, which happens if and only if more of some message arrives than its buffer holds; the process ends if and only if a read or write has failed |
| `ChatIO.MessagesPrinted` | socket-common.c:59-99 | which of messages of at most 300 bytes, cut anywhere, is exactly those that arrived whole, without an overrun |
| `ChatIO.ReceiveBlocksUntilGone` | socket-common.c:42-99 | in encrypted mode a client prints everything its stream decodes to, whatever the stream; the process ends if and only if a read, a write or the device has failed |
| `ChatIO.BlocksPrinted` | socket-common.c:42-99 | which of blocks cut anywhere is exactly the messages whose blocks arrived whole |
| `ChatIO.DistributePlain` | socket-server-irc.c:117-136 | every client but the sender gets the frame once; it stops if and only if a write fails, with the clients before that one served, that one in part and those after it not |
| `ChatIO.DistributeEncrypted` | socket-server-irc.c:117-136 | each client gets its turn of the buffer that is enciphered over and over, up to the first failure, which is of a write or of the device |
| `ChatIO.FanoutOfText` | socket-server-irc.c:74-79 | what is sent on depends only on the message in the buffer |
| `ChatIO.ForwardPlain` | socket-server-irc.c:53-141 | one message is read, printed and sent on as the same frame; none is when the connection ends; the process ends if and only if a read or write has failed |
| `ChatIO.ForwardEncrypted` | socket-server-irc.c:53-141 | the same with blocks: clients get what `RelayExactly` speaks of, and after a failure at most that; the process ends if and only if a read, a write or the device has failed |
| `ChatRelay.StepKeeps` | socket-server-irc.c:53-229 | every step of every thread keeps semaphores, streams and histories in order |
| `ChatRelay.RunInv` | socket-server-irc.c:206-229 | so they are in every reachable state |
| `ChatRelay.FramesStayWhole` | socket-server-irc.c:117-136 | each recipient's stream is whole frames plus at most a part of the semaphore holder's frame |
| `ChatRelay.OneWriter` | socket-server-irc.c:121-135 | two threads never write to the same recipient |
| `ChatRelay.RecipientDecodes` | socket-common.c:59-74 | from any part of its stream a recipient decodes complete messages in order, and all that were delivered |
| `ChatRelay.BroadcastExactly` | socket-server-irc.c:117-136 | a forwarded message reaches exactly the recipients below no_client at loop exit but its sender, once, and each sender's messages in order |
| `ChatRelay.EndToEnd` | socket-server-irc.c:53-141 | what a recipient gets from a sender are the sender's messages, under their numbers, for any cut of the sender's connection |
| `ChatRelay.OnlyInitialised` | socket-server-irc.c:220-229 | only initialised semaphores are waited on or posted |
| `ChatRelay.NeverLocksUp` | socket-server-irc.c:121-135 | while a message is in hand, or one has arrived whole, some thread can go on: no circular wait |
| `ChatRelay.WorkDecreases` | socket-server-irc.c:117-136 | and every such step uses up work, so every message in hand is delivered |
| `ChatRelay.UnreadDecreases` | socket-server-irc.c:53-136 | taking a message uses up input and no other step adds any, so with no new client all threads come to rest |
| `ChatRelay.AllForwarded` | socket-server-irc.c:53-141 | at rest every client's thread has forwarded exactly the messages that arrived whole |
| `ChatRelay.AcceptsUntilFull` | socket-server-irc.c:206-229 | up to MAX_CLIENTS the accepting thread can always go on |
| `Cbc.UnchainChain` | socket-common.c:165-189 | deciphering undoes enciphering |
| `Cbc.ChainUnchain` | socket-common.c:247-266 | enciphering undoes deciphering |
| `Cbc.CbcInvertible` | socket-common.c:162-201 | chaining over any block permutation is a cipher as the chat assumes it |
| `Cbc.SecondRecipientCanFail` | socket-server-irc.c:122-128 | a block permutation under which, chained as in the chat, no second recipient ever sees a message |

## Left out

- The helpers of other files (msix, KVM, memory regions, vrings, event notifiers, the virtio core) are contracts: a vector is counted if in range; `unuse` ignores vectors out of range or unused; a new route differs from all live ones; a second irqfd on a notifier is refused; removing an irqfd succeeds exactly when it is there on that route; a failed unmask leaves the vector masked; disabling MSI-X masks every vector without a callback; cleaning a notifier up cannot fail.
- VirtioPciRuns.RunInv: says nothing of guest notifiers after a fault, where an assertion has ended the process or a count has wrapped; DeviceRuns does not depend on it.
- VirtioPciRuns.IrqfdsExactly: says which queues have irqfds only while they are in step, not once a class without mask hook has moved a bound queue from or to an unmasked vector; faults and what a deassignment leaves are exact then too.
- VirtioPciRuns.LeftStaysOn: not once a class without mask hook has moved a bound queue from or to an unmasked vector: its masking may then remove an irqfd left behind, where KVM has given the route's number out again.
- The queue sizes are fixed, and assigning happens when nothing is assigned.
- DeviceRuns.RunStartedReady: takes from the virtio core, which is not part of this model, that running is reported only with DRIVER_OK.
- VirtioPci.VirtIOPCIProxy.GuestDisableMsix: with GuestMask and GuestUnmask it stands for what the MSI-X code, which is not part of this model, does when the guest writes its table or its control register.
- `irqfd->msg` is compared with the guest's message at line 640 of virtio-pci.c and never assigned there; whether the route is updated is nondeterministic here.
- The feature bits, queue addresses, notifications and the vector poll callback of virtio-pci do not touch the state modelled.
- MigrationRestores: the virtio core, which is not part of this model, saves and loads a prefix of the queues; its own fields are left out.
- The buffers an ioctl allocates for the other commands, which it never sends.
- Allocation failures, invalid user pointers and `kfree` in error paths of the guest driver are not modelled; the buffers of calls in progress are distinct.
- The guest kernel's rules for files are assumed: an open has a file of its own, a release is the last call on its file.
- The request's `flags` field is 0, and the output of a failed CIOCCRYPT is whatever the driver's zeroed buffer holds: it is copied back even then, at line 345 of crypto-chrdev.c.
- An unsupported ioctl command is ignored by the host, and the driver returns the 0 it put into the return value itself.
- CryptoDriver.HostBackend.VqHandleOutput: stops at an element with entries missing or of the wrong kind, which the driver never builds; the source reads beyond the element's lists there.
- CryptoRefinement.NeverStuck: a single thread may wait at the lock for as long as others start new calls; the lock is not fair.
- CryptoFile.CryptoChrdev.Transact: runs with the lock held and the host answering at once; waiting and interleaving are in CryptoProtocol.
- AES and the internals of the host's `/dev/crypto`; the cipher is any function in the device, and any length-preserving bijection in the chat.
- ChatRelay: each thread knows its own id, which the source passes by pointer to a loop variable; at most MAX_CLIENTS connections, which the source does not check; a client's departure, which closes another slot, ends nothing here; encrypted mode is in ChatIO.
- ChatIO.ForwardPlain: one thread on its own, without semaphores; interleaving is in ChatRelay.
- ChatIO.Encrypt: stops where the source copies beyond its buffer, and so do SendLine, GetAndPrintPlain and ReceiveUntilGone.
- ChatIO.GetAndPrintEncrypted: stops at a length beyond the block, where the source prints what follows the block in memory, and so do ReceiveBlocksUntilGone and ForwardEncrypted.
- ChatIO.InsistWrite: a `write` that accepts nothing without an error does not occur.
- Readline, prompts, DNS, `select` and the mains of the clients: user interface.

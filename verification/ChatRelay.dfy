/** The relay in plaintext mode as a step system: the accepting thread, one thread per
    client, one semaphore per recipient. Every `write` is a step of its own. */
module ChatRelay {
  import opened CryptoDevice
  import opened ChatFraming

  const MAX_CLIENTS: nat := 10

  /** Where a client's thread is in `forward`: reading, at the test of the distribution
      loop, or holding a recipient's semaphore with `off` bytes of the frame written. */
  datatype Pc =
    | Idle
    | Loop(m: Message, client: nat)
    | Writing(m: Message, client: nat, off: nat)

  /** `inbox` is what the client has yet to send before its connection ends. Kept for the
      proofs: the messages forwarded so far, and the value of no_client at each loop exit. */
  datatype Thread = Thread(pc: Pc, inbox: seq<Byte>, sent: seq<Message>, exits: seq<nat>)

  /** Message `m`, number `index` among those `sender` had forwarded. */
  datatype Delivery = Delivery(sender: nat, index: nat, m: Message)

  /** A recipient: the value of its semaphore, the bytes written to its socket and, kept
      for the proofs, the frames completed there. */
  datatype Slot = Slot(sem: nat, out: seq<Byte>, delivered: seq<Delivery>)

  datatype State = State(noClient: nat, threads: seq<Thread>, slots: seq<Slot>)

  datatype Step =
    | Accept
    | Spawn
    | Publish
    | Forward(t: nat)
    | Skip(t: nat)
    | Wait(t: nat)
    | Write(t: nat, k: nat)
    | Post(t: nat)
    | Exit(t: nat)

  predicate At(s: State, t: nat) { t < |s.threads| }

  function PcOf(s: State, t: nat): Pc
    requires At(s, t)
  {
    s.threads[t].pc
  }

  /** The accepting thread sets up slot `no_client`, starts its thread, and only then
      counts it. Thread `t` looks at `no_client` anew on every turn of its loop. */
  predicate Enabled(s: State, st: Step) {
    match st
    case Accept => |s.slots| == |s.threads| == s.noClient < MAX_CLIENTS
    case Spawn => |s.slots| == |s.threads| + 1
    case Publish => |s.threads| == s.noClient + 1
    case Forward(t) => At(s, t) && PcOf(s, t).Idle? && Receive(s.threads[t].inbox).Some?
    case Skip(t) => At(s, t) && PcOf(s, t).Loop? && PcOf(s, t).client < s.noClient && PcOf(s, t).client == t
    case Wait(t) =>
      && At(s, t) && PcOf(s, t).Loop? && PcOf(s, t).client < s.noClient && PcOf(s, t).client != t
      && PcOf(s, t).client < |s.slots| && s.slots[PcOf(s, t).client].sem > 0
    case Write(t, k) =>
      && At(s, t) && PcOf(s, t).Writing? && PcOf(s, t).client < |s.slots|
      && 1 <= k <= |Frame(PcOf(s, t).m)| - PcOf(s, t).off
    case Post(t) =>
      At(s, t) && PcOf(s, t).Writing? && PcOf(s, t).client < |s.slots| && PcOf(s, t).off == |Frame(PcOf(s, t).m)|
    case Exit(t) => At(s, t) && PcOf(s, t).Loop? && PcOf(s, t).client >= s.noClient
  }

  function SetPc(s: State, t: nat, pc: Pc): State
    requires At(s, t)
  {
    s.(threads := s.threads[t := s.threads[t].(pc := pc)])
  }

  function SetSlot(s: State, c: nat, slot: Slot): State
    requires c < |s.slots|
  {
    s.(slots := s.slots[c := slot])
  }

  /** The state after a step; `inbox` is the stream of a client whose thread starts. */
  function After(s: State, st: Step, inbox: seq<Byte>): State
    requires Enabled(s, st)
  {
    match st
    case Accept => s.(slots := s.slots + [Slot(1, [], [])])
    case Spawn => s.(threads := s.threads + [Thread(Idle, inbox, [], [])])
    case Publish => s.(noClient := s.noClient + 1)
    case Forward(t) =>
      var (m, rest) := Receive(s.threads[t].inbox).value;
      var sent := s.threads[t].sent + [m];
      s.(threads := s.threads[t := s.threads[t].(pc := Loop(m, 0), inbox := rest, sent := sent)])
    case Skip(t) => SetPc(s, t, Loop(PcOf(s, t).m, PcOf(s, t).client + 1))
    case Wait(t) =>
      var Loop(m, c) := PcOf(s, t);
      SetPc(SetSlot(s, c, s.slots[c].(sem := s.slots[c].sem - 1)), t, Writing(m, c, 0))
    case Write(t, k) =>
      var Writing(m, c, off) := PcOf(s, t);
      SetPc(SetSlot(s, c, s.slots[c].(out := s.slots[c].out + Frame(m)[off..off + k])), t, Writing(m, c, off + k))
    case Post(t) =>
      var Writing(m, c, off) := PcOf(s, t);
      var d := Delivery(t, |s.threads[t].exits|, m);
      SetPc(SetSlot(s, c, s.slots[c].(sem := s.slots[c].sem + 1, delivered := s.slots[c].delivered + [d])),
            t, Loop(m, c + 1))
    case Exit(t) =>
      s.(threads := s.threads[t := s.threads[t].(pc := Idle, exits := s.threads[t].exits + [s.noClient])])
  }

  /** `streams(t)` is everything client `t` sends before its connection ends. */
  type Streams = nat -> seq<Byte>

  ghost predicate Next(streams: Streams, s: State, s': State) {
    exists st :: Enabled(s, st) && s' == After(s, st, streams(|s.threads|))
  }

  const Start: State := State(0, [], [])

  /** The states of a run from the start of the accept loop. */
  ghost predicate IsRun(streams: Streams, run: seq<State>) {
    && run != [] && run[0] == Start
    && forall i :: 0 <= i < |run| - 1 ==> Next(streams, run[i], run[i + 1])
  }

  // ----- what is always true -----

  /** Thread `t` is writing to recipient `c`, or about to post its semaphore. */
  predicate Holds(s: State, t: nat, c: nat) {
    At(s, t) && PcOf(s, t).Writing? && PcOf(s, t).client == c
  }

  /** A semaphore is 1 and unheld, or 0 and held by exactly one thread. */
  ghost predicate SemOk(s: State, c: nat)
    requires c < |s.slots|
  {
    && s.slots[c].sem <= 1
    && (s.slots[c].sem == 1 <==> forall t: nat :: !Holds(s, t, c))
    && forall t: nat, u: nat :: Holds(s, t, c) && Holds(s, u, c) ==> t == u
  }

  /** The accepting thread is between two of its three actions, and no thread runs ahead
      of the published number of clients. */
  ghost predicate Layout(s: State) {
    && s.noClient <= |s.threads| <= |s.slots| <= s.noClient + 1
    && |s.slots| <= MAX_CLIENTS
    && forall t: nat :: At(s, t) ==> ThreadOk(s.threads[t], t, s.noClient)
  }

  ghost predicate ThreadOk(th: Thread, t: nat, noClient: nat) {
    && (forall j :: 0 <= j < |th.exits| ==> th.exits[j] <= noClient)
    && (forall m :: m in th.sent ==> Sendable(m))
    && match th.pc
       case Idle => |th.sent| == |th.exits|
       case Loop(m, c) => |th.sent| == |th.exits| + 1 && m == th.sent[|th.exits|] && c <= noClient
       case Writing(m, c, off) =>
         && |th.sent| == |th.exits| + 1 && m == th.sent[|th.exits|]
         && c < noClient && c != t && off <= |Frame(m)|
  }

  /** How far thread `t` has got with each message it received: the recipients below the
      limit have been dealt with. */
  function Limits(th: Thread): seq<nat> {
    match th.pc
    case Idle => th.exits
    case Loop(_, c) => th.exits + [c]
    case Writing(_, c, _) => th.exits + [c]
  }

  /** What recipient `c` is to have from thread `t`: every message whose limit lies above
      `c`, in order, unless it is the sender itself. */
  function Due(t: nat, c: nat, sent: seq<Message>, limits: seq<nat>): seq<Delivery>
    requires |limits| <= |sent|
  {
    if limits == [] then []
    else
      var k := |limits| - 1;
      Due(t, c, sent, limits[..k]) + if c < limits[k] && c != t then [Delivery(t, k, sent[k])] else []
  }

  function From(ds: seq<Delivery>, t: nat): seq<Delivery> {
    if ds == [] then []
    else
      var k := |ds| - 1;
      From(ds[..k], t) + if ds[k].sender == t then [ds[k]] else []
  }

  function Bodies(ds: seq<Delivery>): seq<Message> {
    seq(|ds|, i requires 0 <= i < |ds| => ds[i].m)
  }

  /** The part of a frame that is on its way to recipient `c`. */
  ghost predicate StreamOk(s: State, c: nat)
    requires c < |s.slots|
  {
    var done := Frames(Bodies(s.slots[c].delivered));
    && (s.slots[c].sem == 1 ==> s.slots[c].out == done)
    && forall t: nat :: Holds(s, t, c) ==>
         PcOf(s, t).off <= |Frame(PcOf(s, t).m)| && s.slots[c].out == done + Frame(PcOf(s, t).m)[..PcOf(s, t).off]
  }

  ghost predicate DeliveredOk(s: State, c: nat)
    requires c < |s.slots|
  {
    && (forall d :: d in s.slots[c].delivered ==> At(s, d.sender) && Sendable(d.m))
    && forall t: nat :: At(s, t) ==> DueFrom(s.threads[t], t, c, s.slots[c].delivered)
  }

  ghost predicate DueFrom(th: Thread, t: nat, c: nat, ds: seq<Delivery>) {
    |Limits(th)| == |th.sent| && From(ds, t) == Due(t, c, th.sent, Limits(th))
  }

  ghost predicate SlotOk(s: State, c: nat) {
    c < |s.slots| && SemOk(s, c) && StreamOk(s, c) && DeliveredOk(s, c)
  }

  ghost predicate Inv(s: State) {
    Layout(s) && forall c :: 0 <= c < |s.slots| ==> SlotOk(s, c)
  }

  // ----- facts about the histories -----

  lemma {:induction false} DueMore(t: nat, c: nat, sent: seq<Message>, m: Message, limits: seq<nat>)
    requires |limits| <= |sent|
    ensures Due(t, c, sent + [m], limits) == Due(t, c, sent, limits)
  {
    if limits != [] {
      DueMore(t, c, sent, m, limits[..|limits| - 1]);
    }
  }

  lemma DueLast(t: nat, c: nat, sent: seq<Message>, exits: seq<nat>, x: nat)
    requires |exits| < |sent|
    ensures Due(t, c, sent, exits + [x])
         == Due(t, c, sent, exits) + if c < x && c != t then [Delivery(t, |exits|, sent[|exits|])] else []
  {
    assert (exits + [x])[..|exits|] == exits;
  }

  /** Moving a limit past recipient `b` makes the message due there and nowhere else. */
  lemma DueNext(t: nat, c: nat, sent: seq<Message>, exits: seq<nat>, b: nat)
    requires |exits| < |sent|
    ensures Due(t, c, sent, exits + [b + 1])
         == Due(t, c, sent, exits + [b]) + if c == b && c != t then [Delivery(t, |exits|, sent[|exits|])] else []
  {
    DueLast(t, c, sent, exits, b);
    DueLast(t, c, sent, exits, b + 1);
  }

  lemma {:induction false} DueNothing(t: nat, c: nat, sent: seq<Message>, limits: seq<nat>)
    requires |limits| <= |sent| && forall j :: 0 <= j < |limits| ==> limits[j] <= c
    ensures Due(t, c, sent, limits) == []
  {
    if limits != [] {
      DueNothing(t, c, sent, limits[..|limits| - 1]);
    }
  }

  lemma FromLast(ds: seq<Delivery>, d: Delivery, t: nat)
    ensures From(ds + [d], t) == From(ds, t) + if d.sender == t then [d] else []
  {
    assert (ds + [d])[..|ds|] == ds;
  }

  lemma {:induction false} FromNobody(ds: seq<Delivery>, t: nat)
    requires forall d :: d in ds ==> d.sender != t
    ensures From(ds, t) == []
  {
    if ds != [] {
      FromNobody(ds[..|ds| - 1], t);
    }
  }

  // ----- every step keeps the invariant -----

  lemma AcceptKeeps(s: State, inbox: seq<Byte>, s': State)
    requires Inv(s) && Enabled(s, Accept) && s' == After(s, Accept, inbox)
    ensures Inv(s')
  {
    var c := |s.slots|;
    forall t: nat | At(s', t) ensures DueFrom(s'.threads[t], t, c, []) {
      assert ThreadOk(s.threads[t], t, s.noClient);
      DueNothing(t, c, s.threads[t].sent, Limits(s.threads[t]));
    }
    forall t: nat ensures !Holds(s', t, c) {
      assert At(s, t) ==> ThreadOk(s.threads[t], t, s.noClient);
    }
    forall b | 0 <= b < |s.slots| ensures SlotOk(s', b) {
      assert SlotOk(s, b) && s'.slots[b] == s.slots[b];
      assert forall t: nat :: Holds(s', t, b) <==> Holds(s, t, b);
    }
    assert Bodies([]) == [];
    assert SlotOk(s', c);
  }

  lemma SpawnKeeps(s: State, inbox: seq<Byte>, s': State)
    requires Inv(s) && Enabled(s, Spawn) && s' == After(s, Spawn, inbox)
    ensures Inv(s')
  {
    var t := |s.threads|;
    forall b | 0 <= b < |s.slots| ensures SlotOk(s', b) {
      assert SlotOk(s, b) && s'.slots[b] == s.slots[b];
      assert forall u: nat :: Holds(s', u, b) <==> Holds(s, u, b);
      FromNobody(s.slots[b].delivered, t);
      forall u: nat | At(s', u) ensures DueFrom(s'.threads[u], u, b, s.slots[b].delivered) {
        assert u != t ==> DueFrom(s.threads[u], u, b, s.slots[b].delivered);
      }
    }
  }

  lemma PublishKeeps(s: State, inbox: seq<Byte>, s': State)
    requires Inv(s) && Enabled(s, Publish) && s' == After(s, Publish, inbox)
    ensures Inv(s')
  {
    forall t: nat | At(s', t) ensures ThreadOk(s'.threads[t], t, s'.noClient) {
      assert ThreadOk(s.threads[t], t, s.noClient);
    }
    forall b | 0 <= b < |s.slots| ensures SlotOk(s', b) {
      assert SlotOk(s, b);
      assert forall u: nat :: Holds(s', u, b) <==> Holds(s, u, b);
    }
  }

  /** Thread `t` is the only one to move, and the accepting thread stays where it is. */
  ghost predicate Moved(s: State, s': State, t: nat) {
    && At(s, t) && |s'.threads| == |s.threads| && s'.noClient == s.noClient && |s'.slots| == |s.slots|
    && forall u: nat :: At(s, u) && u != t ==> s'.threads[u] == s.threads[u]
  }

  /** A slot the moving thread `t` neither held nor holds keeps its state. */
  lemma OtherSlot(s: State, s': State, t: nat, c: nat)
    requires SlotOk(s, c) && Moved(s, s', t) && s'.slots[c] == s.slots[c]
    requires !Holds(s, t, c) && !Holds(s', t, c)
    requires DueFrom(s'.threads[t], t, c, s.slots[c].delivered)
    ensures SlotOk(s', c)
  {
    assert forall u: nat :: Holds(s', u, c) <==> Holds(s, u, c);
    forall u: nat | At(s', u) ensures DueFrom(s'.threads[u], u, c, s'.slots[c].delivered) {
      assert DueFrom(s.threads[u], u, c, s.slots[c].delivered);
    }
  }

  /** Only thread `t` moved, and it is in order. */
  lemma ThreadsKept(s: State, s': State, t: nat)
    requires Layout(s) && Moved(s, s', t) && ThreadOk(s'.threads[t], t, s.noClient)
    ensures Layout(s')
  {
    forall u: nat | At(s', u) ensures ThreadOk(s'.threads[u], u, s'.noClient) {
      assert ThreadOk(s.threads[u], u, s.noClient);
    }
  }

  lemma ReceivedSendable(x: seq<Byte>)
    requires Receive(x).Some?
    ensures Sendable(Receive(x).value.0)
  {
  }

  lemma ForwardKeeps(s: State, inbox: seq<Byte>, s': State, t: nat)
    requires Inv(s) && Enabled(s, Forward(t)) && s' == After(s, Forward(t), inbox)
    ensures Inv(s')
  {
    ReceivedSendable(s.threads[t].inbox);
    var th, m := s.threads[t], Receive(s.threads[t].inbox).value.0;
    assert ThreadOk(th, t, s.noClient);
    ThreadsKept(s, s', t);
    forall c | 0 <= c < |s.slots| ensures SlotOk(s', c) {
      assert SlotOk(s, c) && DueFrom(th, t, c, s.slots[c].delivered);
      DueMore(t, c, th.sent, m, th.exits);
      DueLast(t, c, th.sent + [m], th.exits, 0);
      OtherSlot(s, s', t, c);
    }
  }

  lemma SkipKeeps(s: State, inbox: seq<Byte>, s': State, t: nat)
    requires Inv(s) && Enabled(s, Skip(t)) && s' == After(s, Skip(t), inbox)
    ensures Inv(s')
  {
    var th := s.threads[t];
    assert ThreadOk(th, t, s.noClient);
    ThreadsKept(s, s', t);
    forall c | 0 <= c < |s.slots| ensures SlotOk(s', c) {
      assert SlotOk(s, c) && DueFrom(th, t, c, s.slots[c].delivered);
      DueNext(t, c, th.sent, th.exits, t);
      OtherSlot(s, s', t, c);
    }
  }

  lemma ExitKeeps(s: State, inbox: seq<Byte>, s': State, t: nat)
    requires Inv(s) && Enabled(s, Exit(t)) && s' == After(s, Exit(t), inbox)
    ensures Inv(s')
  {
    var th := s.threads[t];
    assert ThreadOk(th, t, s.noClient);
    ThreadsKept(s, s', t);
    assert Limits(s'.threads[t]) == Limits(th);
    forall c | 0 <= c < |s.slots| ensures SlotOk(s', c) {
      assert SlotOk(s, c) && DueFrom(th, t, c, s.slots[c].delivered);
      OtherSlot(s, s', t, c);
    }
  }

  /** What taking a semaphore does to the thread and to slot `c`. */
  ghost predicate Waited(s: State, s': State, t: nat, c: nat)
    requires c < |s.slots|
  {
    && Moved(s, s', t) && s'.threads[t] == s.threads[t].(pc := s'.threads[t].pc) && PcOf(s, t).Loop?
    && var Loop(m, b) := PcOf(s, t);
       && PcOf(s', t) == Writing(m, b, 0)
       && (c == b ==> s.slots[c].sem > 0)
       && s'.slots[c] == if c == b then s.slots[c].(sem := s.slots[c].sem - 1) else s.slots[c]
  }

  lemma WaitSlot(s: State, s': State, t: nat, c: nat)
    requires SlotOk(s, c) && Waited(s, s', t, c)
    ensures SlotOk(s', c)
  {
    DeliveredKept(s, s', t, c);
    if c == PcOf(s, t).client {
      SemTaken(s, s', t, c);
    } else {
      OtherSlot(s, s', t, c);
    }
  }

  lemma WaitKeeps(s: State, inbox: seq<Byte>, s': State, t: nat)
    requires Inv(s) && Enabled(s, Wait(t)) && s' == After(s, Wait(t), inbox)
    ensures Inv(s')
  {
    assert ThreadOk(s.threads[t], t, s.noClient);
    ThreadsKept(s, s', t);
    forall c | 0 <= c < |s.slots| ensures SlotOk(s', c) {
      assert SlotOk(s, c);
      WaitSlot(s, s', t, c);
    }
  }

  lemma SemTaken(s: State, s': State, t: nat, c: nat)
    requires c < |s.slots| && SemOk(s, c) && StreamOk(s, c) && Moved(s, s', t)
    requires s.slots[c].sem > 0 && s'.slots[c] == s.slots[c].(sem := s.slots[c].sem - 1)
    requires Holds(s', t, c) && PcOf(s', t).off == 0
    ensures SemOk(s', c) && StreamOk(s', c)
  {
    assert forall u: nat :: u != t && Holds(s', u, c) ==> Holds(s, u, c);
    assert s'.slots[c].out == s.slots[c].out + Frame(PcOf(s', t).m)[..0];
  }

  lemma SemPosted(s: State, s': State, t: nat, c: nat)
    requires c < |s.slots| && SemOk(s, c) && StreamOk(s, c) && Moved(s, s', t)
    requires Holds(s, t, c) && !Holds(s', t, c) && PcOf(s, t).off == |Frame(PcOf(s, t).m)|
    requires s'.slots[c].sem == s.slots[c].sem + 1 && s'.slots[c].out == s.slots[c].out
    requires s'.slots[c].delivered == s.slots[c].delivered + [Delivery(t, |s.threads[t].exits|, PcOf(s, t).m)]
    ensures SemOk(s', c) && StreamOk(s', c)
  {
    assert forall u: nat :: Holds(s', u, c) ==> u != t && Holds(s, u, c);
    PostedStream(s.slots[c].delivered, Delivery(t, |s.threads[t].exits|, PcOf(s, t).m));
  }

  lemma SemHeld(s: State, s': State, t: nat, c: nat, k: nat)
    requires c < |s.slots| && SemOk(s, c) && StreamOk(s, c) && Moved(s, s', t) && Holds(s, t, c)
    requires var Writing(m, b, off) := PcOf(s, t);
      && off + k <= |Frame(m)| && PcOf(s', t) == Writing(m, b, off + k)
      && s'.slots[c] == s.slots[c].(out := s.slots[c].out + Frame(m)[off..off + k])
    ensures SemOk(s', c) && StreamOk(s', c)
  {
    var Writing(m, b, off) := PcOf(s, t);
    assert forall u: nat :: Holds(s', u, c) <==> Holds(s, u, c);
    assert Frame(m)[..off] + Frame(m)[off..off + k] == Frame(m)[..off + k];
  }

  /** The moving thread `t` changes neither its limits nor what has been delivered at `c`. */
  lemma DeliveredKept(s: State, s': State, t: nat, c: nat)
    requires c < |s.slots| && DeliveredOk(s, c) && Moved(s, s', t)
    requires s'.slots[c].delivered == s.slots[c].delivered
    requires Limits(s'.threads[t]) == Limits(s.threads[t]) && s'.threads[t].sent == s.threads[t].sent
    ensures DeliveredOk(s', c)
  {
    forall u: nat | At(s', u) ensures DueFrom(s'.threads[u], u, c, s'.slots[c].delivered) {
      assert DueFrom(s.threads[u], u, c, s.slots[c].delivered);
    }
  }

  /** What a write does to the thread and to slot `c`. */
  ghost predicate Wrote(s: State, s': State, t: nat, k: nat, c: nat)
    requires c < |s.slots|
  {
    && Moved(s, s', t) && s'.threads[t] == s.threads[t].(pc := s'.threads[t].pc) && PcOf(s, t).Writing?
    && var Writing(m, b, off) := PcOf(s, t);
       && off + k <= |Frame(m)| && PcOf(s', t) == Writing(m, b, off + k)
       && s'.slots[c] == if c == b then s.slots[c].(out := s.slots[c].out + Frame(m)[off..off + k]) else s.slots[c]
  }

  lemma WriteSlot(s: State, s': State, t: nat, k: nat, c: nat)
    requires SlotOk(s, c) && Wrote(s, s', t, k, c)
    ensures SlotOk(s', c)
  {
    DeliveredKept(s, s', t, c);
    if c == PcOf(s, t).client {
      SemHeld(s, s', t, c, k);
    } else {
      OtherSlot(s, s', t, c);
    }
  }

  lemma WriteWrites(s: State, inbox: seq<Byte>, s': State, t: nat, k: nat)
    requires Layout(s) && Enabled(s, Write(t, k)) && s' == After(s, Write(t, k), inbox)
    ensures Moved(s, s', t) && ThreadOk(s'.threads[t], t, s.noClient)
    ensures forall c :: 0 <= c < |s.slots| ==> Wrote(s, s', t, k, c)
  {
    assert ThreadOk(s.threads[t], t, s.noClient);
  }

  lemma WriteKeeps(s: State, inbox: seq<Byte>, s': State, t: nat, k: nat)
    requires Inv(s) && Enabled(s, Write(t, k)) && s' == After(s, Write(t, k), inbox)
    ensures Inv(s')
  {
    WriteWrites(s, inbox, s', t, k);
    ThreadsKept(s, s', t);
    forall c | 0 <= c < |s.slots| ensures SlotOk(s', c) {
      assert SlotOk(s, c);
      WriteSlot(s, s', t, k, c);
    }
  }

  /** What posting a semaphore does to the thread and to slot `c`. */
  ghost predicate Posted(s: State, s': State, t: nat, c: nat)
    requires c < |s.slots|
  {
    && Moved(s, s', t) && s'.threads[t] == s.threads[t].(pc := s'.threads[t].pc) && PcOf(s, t).Writing?
    && var Writing(m, b, off) := PcOf(s, t);
       var d := Delivery(t, |s.threads[t].exits|, m);
       && off == |Frame(m)| && PcOf(s', t) == Loop(m, b + 1)
       && s'.slots[c] == if c == b then s.slots[c].(sem := s.slots[c].sem + 1, delivered := s.slots[c].delivered + [d]) else s.slots[c]
  }

  lemma PostSlot(s: State, s': State, t: nat, c: nat)
    requires SlotOk(s, c) && Posted(s, s', t, c) && ThreadOk(s.threads[t], t, s.noClient)
    ensures SlotOk(s', c)
  {
    var th, b := s.threads[t], PcOf(s, t).client;
    assert DueFrom(th, t, c, s.slots[c].delivered);
    DueNext(t, c, th.sent, th.exits, b);
    if c != b {
      OtherSlot(s, s', t, c);
    } else {
      SemPosted(s, s', t, c);
      PostedDeliveries(s, s', t, c, Delivery(t, |th.exits|, PcOf(s, t).m));
    }
  }

  lemma PostPosts(s: State, inbox: seq<Byte>, s': State, t: nat)
    requires Layout(s) && Enabled(s, Post(t)) && s' == After(s, Post(t), inbox)
    ensures Moved(s, s', t) && ThreadOk(s'.threads[t], t, s.noClient) && ThreadOk(s.threads[t], t, s.noClient)
    ensures forall c :: 0 <= c < |s.slots| ==> Posted(s, s', t, c)
  {
    assert ThreadOk(s.threads[t], t, s.noClient);
  }

  lemma PostKeeps(s: State, inbox: seq<Byte>, s': State, t: nat)
    requires Inv(s) && Enabled(s, Post(t)) && s' == After(s, Post(t), inbox)
    ensures Inv(s')
  {
    PostPosts(s, inbox, s', t);
    ThreadsKept(s, s', t);
    forall c | 0 <= c < |s.slots| ensures SlotOk(s', c) {
      assert SlotOk(s, c);
      PostSlot(s, s', t, c);
    }
  }

  lemma PostedStream(ds: seq<Delivery>, d: Delivery)
    ensures Frames(Bodies(ds + [d])) == Frames(Bodies(ds)) + Frame(d.m)[..|Frame(d.m)|]
  {
    assert Bodies(ds + [d]) == Bodies(ds) + [d.m];
    FramesAppend(Bodies(ds), d.m);
    assert Frame(d.m)[..|Frame(d.m)|] == Frame(d.m);
  }

  lemma PostedDeliveries(s: State, s': State, t: nat, c: nat, d: Delivery)
    requires c < |s.slots| && DeliveredOk(s, c) && Moved(s, s', t)
    requires s'.slots[c].delivered == s.slots[c].delivered + [d]
    requires d.sender == t && Sendable(d.m)
    requires |Limits(s'.threads[t])| == |s'.threads[t].sent|
    requires Due(t, c, s'.threads[t].sent, Limits(s'.threads[t]))
          == Due(t, c, s.threads[t].sent, Limits(s.threads[t])) + [d]
    ensures DeliveredOk(s', c)
  {
    forall u: nat | At(s', u) ensures DueFrom(s'.threads[u], u, c, s'.slots[c].delivered) {
      assert DueFrom(s.threads[u], u, c, s.slots[c].delivered);
      FromLast(s.slots[c].delivered, d, u);
    }
  }

  lemma StepKeeps(streams: Streams, s: State, s': State)
    requires Inv(s) && Next(streams, s, s')
    ensures Inv(s')
  {
    var inbox := streams(|s.threads|);
    var st :| Enabled(s, st) && s' == After(s, st, inbox);
    match st
    case Accept => AcceptKeeps(s, inbox, s');
    case Spawn => SpawnKeeps(s, inbox, s');
    case Publish => PublishKeeps(s, inbox, s');
    case Forward(t) => ForwardKeeps(s, inbox, s', t);
    case Skip(t) => SkipKeeps(s, inbox, s', t);
    case Wait(t) => WaitKeeps(s, inbox, s', t);
    case Write(t, k) => WriteKeeps(s, inbox, s', t, k);
    case Post(t) => PostKeeps(s, inbox, s', t);
    case Exit(t) => ExitKeeps(s, inbox, s', t);
  }

  lemma {:induction false} RunInv(streams: Streams, run: seq<State>)
    requires IsRun(streams, run)
    ensures Inv(run[|run| - 1])
  {
    if |run| > 1 {
      RunInv(streams, run[..|run| - 1]);
      StepKeeps(streams, run[|run| - 2], run[|run| - 1]);
    }
  }

  // ----- frames stay whole -----

  /** Recipient `c` has `off` bytes of `m` from thread `t` after its whole frames. */
  ghost predicate Underway(s: State, c: nat, t: nat, m: Message, off: nat) {
    && At(s, t) && PcOf(s, t) == Writing(m, c, off) && off <= |Frame(m)|
    && c < |s.slots| && s.slots[c].out == Frames(Bodies(s.slots[c].delivered)) + Frame(m)[..off]
  }

  /** In every reachable state the stream to a recipient is whole frames, followed, while
      some thread holds the recipient's semaphore, by a part of that thread's frame. */
  lemma FramesStayWhole(streams: Streams, run: seq<State>, c: nat)
    requires IsRun(streams, run) && c < |run[|run| - 1].slots|
    ensures var s := run[|run| - 1];
      || (s.slots[c].sem == 1 && s.slots[c].out == Frames(Bodies(s.slots[c].delivered)))
      || (s.slots[c].sem == 0 && exists t: nat, m, off: nat :: Underway(s, c, t, m, off))
  {
    RunInv(streams, run);
    var s := run[|run| - 1];
    assert SlotOk(s, c);
    if s.slots[c].sem == 0 {
      var t: nat :| Holds(s, t, c);
      assert Underway(s, c, t, PcOf(s, t).m, PcOf(s, t).off);
    }
  }

  /** Two threads never write to the same recipient. */
  lemma OneWriter(streams: Streams, run: seq<State>, c: nat, t: nat, u: nat)
    requires IsRun(streams, run)
    requires Holds(run[|run| - 1], t, c) && Holds(run[|run| - 1], u, c)
    ensures t == u
  {
    RunInv(streams, run);
    var s := run[|run| - 1];
    assert ThreadOk(s.threads[t], t, s.noClient);
    assert SlotOk(s, c);
  }

  lemma {:induction false} WholeAtLeast(ms: seq<Message>, more: seq<Message>, t: nat)
    requires t >= |Frames(ms)|
    ensures Whole(ms + more, t) >= |ms|
  {
    if ms != [] {
      assert (ms + more)[1..] == ms[1..] + more;
      WholeAtLeast(ms[1..], more, t - |Frame(ms[0])|);
    }
  }

  lemma StreamDecodes(ms: seq<Message>, m: Message, off: nat, cut: nat)
    requires Sendable(m) && forall x :: x in ms ==> Sendable(x)
    requires off <= |Frame(m)| && cut <= |Frames(ms)| + off
    ensures ReceiveAll((Frames(ms) + Frame(m)[..off])[..cut]) == (ms + [m])[..Whole(ms + [m], cut)]
    ensures cut >= |Frames(ms)| ==> Whole(ms + [m], cut) >= |ms|
  {
    FramesAppend(ms, m);
    assert (Frames(ms) + Frame(m)[..off])[..cut] == Frames(ms + [m])[..cut];
    PrefixSafety(ms + [m], cut);
    if cut >= |Frames(ms)| {
      WholeAtLeast(ms, [m], cut);
    }
  }

  lemma BodiesSendable(s: State, c: nat)
    requires Inv(s) && c < |s.slots|
    ensures forall m :: m in Bodies(s.slots[c].delivered) ==> Sendable(m)
    ensures forall t: nat :: Holds(s, t, c) ==> Sendable(PcOf(s, t).m)
  {
    assert SlotOk(s, c);
    forall t: nat | Holds(s, t, c) ensures Sendable(PcOf(s, t).m) {
      assert ThreadOk(s.threads[t], t, s.noClient) && PcOf(s, t).m in s.threads[t].sent;
    }
  }

  /** Whatever part of its stream has arrived, a recipient decodes complete messages in
      the order of their frames: those delivered, and at most the one being written. */
  lemma RecipientDecodes(streams: Streams, run: seq<State>, c: nat, cut: nat)
    requires IsRun(streams, run)
    requires var s := run[|run| - 1]; c < |s.slots| && cut <= |s.slots[c].out|
    ensures var s := run[|run| - 1];
      var got, ms := ReceiveAll(s.slots[c].out[..cut]), Bodies(s.slots[c].delivered);
      && (got <= ms || exists t: nat, m, off: nat :: Underway(s, c, t, m, off) && got == ms + [m])
      && (cut == |s.slots[c].out| ==> ms <= got)
  {
    RunInv(streams, run);
    var s := run[|run| - 1];
    BodiesSendable(s, c);
    FramesStayWhole(streams, run, c);
    var ms := Bodies(s.slots[c].delivered);
    if s.slots[c].sem == 1 {
      PrefixSafety(ms, cut);
      WholeAtLeast(ms, [], |Frames(ms)|);
      assert ms + [] == ms;
    } else {
      var t: nat, m, off: nat :| Underway(s, c, t, m, off);
      assert Holds(s, t, c);
      StreamDecodes(ms, m, off, cut);
      PrefixOfMore(ms, m, Whole(ms + [m], cut));
    }
  }

  lemma PrefixOfMore(ms: seq<Message>, m: Message, k: nat)
    requires k <= |ms| + 1
    ensures (ms + [m])[..k] <= ms || (ms + [m])[..k] == ms + [m]
    ensures k >= |ms| ==> ms <= (ms + [m])[..k]
  {
  }

  // ----- every message to everyone, once, in order -----

  /** A message is due exactly at the recipients below its limit other than its sender. */
  lemma {:induction false} DueExactly(t: nat, c: nat, sent: seq<Message>, limits: seq<nat>, d: Delivery)
    requires |limits| <= |sent|
    ensures d in Due(t, c, sent, limits)
       <==> d.sender == t && d.index < |limits| && d.m == sent[d.index] && c < limits[d.index] && c != t
  {
    if limits != [] {
      DueExactly(t, c, sent, limits[..|limits| - 1], d);
    }
  }

  ghost predicate InOrder(ds: seq<Delivery>, t: nat) {
    forall i, j :: 0 <= i < j < |ds| && ds[i].sender == t && ds[j].sender == t ==> ds[i].index < ds[j].index
  }

  lemma {:induction false} DueInOrder(t: nat, c: nat, sent: seq<Message>, limits: seq<nat>)
    requires |limits| <= |sent|
    ensures InOrder(Due(t, c, sent, limits), t)
  {
    if limits != [] {
      var before := Due(t, c, sent, limits[..|limits| - 1]);
      DueInOrder(t, c, sent, limits[..|limits| - 1]);
      forall i | 0 <= i < |before| ensures before[i].index < |limits| - 1 {
        DueExactly(t, c, sent, limits[..|limits| - 1], before[i]);
      }
    }
  }

  lemma {:induction false} FromExactly(ds: seq<Delivery>, t: nat, d: Delivery)
    ensures d in From(ds, t) <==> d in ds && d.sender == t
  {
    if ds != [] {
      FromExactly(ds[..|ds| - 1], t, d);
      assert ds == ds[..|ds| - 1] + [ds[|ds| - 1]];
    }
  }

  lemma {:induction false} FromInOrder(ds: seq<Delivery>, t: nat)
    requires InOrder(From(ds, t), t)
    ensures InOrder(ds, t)
  {
    if ds != [] {
      var k := |ds| - 1;
      var before := From(ds[..k], t);
      forall i, j | 0 <= i < j < |before| && before[i].sender == t && before[j].sender == t
        ensures before[i].index < before[j].index
      {
        assert From(ds, t)[i] == before[i] && From(ds, t)[j] == before[j];
      }
      FromInOrder(ds[..k], t);
      forall i | 0 <= i < k && ds[i].sender == t && ds[k].sender == t ensures ds[i].index < ds[k].index {
        FromExactly(ds[..k], t, ds[i]);
        assert ds[i] in ds[..k];
        var p :| 0 <= p < |before| && before[p] == ds[i];
        assert From(ds, t)[p] == ds[i] && From(ds, t)[|before|] == ds[k];
      }
    }
  }

  /** What recipient `c` has from thread `t`: exactly those messages whose loop has passed
      `c` - for a completed loop, those with `c` below the number of clients at its exit -
      and none if `t` serves `c` itself; each once, and in the order they were sent. */
  lemma BroadcastExactly(streams: Streams, run: seq<State>, c: nat, t: nat)
    requires IsRun(streams, run)
    requires c < |run[|run| - 1].slots| && At(run[|run| - 1], t)
    ensures var (th, ds) := (run[|run| - 1].threads[t], run[|run| - 1].slots[c].delivered);
      && InOrder(ds, t)
      && |Limits(th)| == |th.sent| && th.exits <= Limits(th)
      && forall d :: d in ds && d.sender == t <==>
           d.sender == t && d.index < |th.sent| && d.m == th.sent[d.index] && c < Limits(th)[d.index] && c != t
  {
    RunInv(streams, run);
    var s := run[|run| - 1];
    var th, ds := s.threads[t], s.slots[c].delivered;
    assert SlotOk(s, c) && DueFrom(th, t, c, ds);
    DueInOrder(t, c, th.sent, Limits(th));
    FromInOrder(ds, t);
    forall d ensures d in ds && d.sender == t <==>
        d.sender == t && d.index < |th.sent| && d.m == th.sent[d.index] && c < Limits(th)[d.index] && c != t
    {
      FromExactly(ds, t, d);
      DueExactly(t, c, th.sent, Limits(th), d);
    }
  }

  /** Nothing a recipient gets was made up: every delivery comes from a client's thread. */
  ghost predicate InputOk(streams: Streams, s: State, t: nat)
    requires At(s, t)
  {
    s.threads[t].sent + ReceiveAll(s.threads[t].inbox) == ReceiveAll(streams(t))
  }

  lemma {:induction false} RunInputs(streams: Streams, run: seq<State>, t: nat)
    requires IsRun(streams, run) && At(run[|run| - 1], t)
    ensures InputOk(streams, run[|run| - 1], t)
  {
    if |run| > 1 {
      var s, s' := run[|run| - 2], run[|run| - 1];
      assert Next(streams, s, s');
      if At(s, t) {
        RunInputs(streams, run[..|run| - 1], t);
      }
      InputStep(streams, s, s', t);
    }
  }

  lemma InputStep(streams: Streams, s: State, s': State, t: nat)
    requires Next(streams, s, s') && At(s', t) && (At(s, t) ==> InputOk(streams, s, t))
    ensures InputOk(streams, s', t)
  {
    var st :| Enabled(s, st) && s' == After(s, st, streams(|s.threads|));
    if At(s, t) {
      InputKept(streams, s, st, streams(|s.threads|), s', t);
    } else {
      InputBegins(s, st, streams(|s.threads|), s', t);
    }
  }

  lemma InputBegins(s: State, st: Step, inbox: seq<Byte>, s': State, t: nat)
    requires Enabled(s, st) && s' == After(s, st, inbox) && At(s', t) && !At(s, t)
    ensures t == |s.threads| && s'.threads[t] == Thread(Idle, inbox, [], [])
  {
  }

  lemma InputKept(streams: Streams, s: State, st: Step, inbox: seq<Byte>, s': State, t: nat)
    requires Enabled(s, st) && s' == After(s, st, inbox) && At(s, t) && InputOk(streams, s, t)
    ensures At(s', t) && InputOk(streams, s', t)
  {
    if st == Forward(t) {
      var m := Receive(s.threads[t].inbox).value.0;
      assert ReceiveAll(s.threads[t].inbox) == [m] + ReceiveAll(s'.threads[t].inbox);
    }
  }

  /** What one client sends and another decodes: when client `t` sends the messages `ms` and
      its connection ends anywhere, its deliveries to `c` are messages of `ms`, under the
      numbers they have there. */
  lemma EndToEnd(streams: Streams, run: seq<State>, c: nat, t: nat, ms: seq<Message>, cut: nat)
    requires IsRun(streams, run) && c < |run[|run| - 1].slots| && At(run[|run| - 1], t)
    requires forall m :: m in ms ==> Sendable(m)
    requires cut <= |Frames(ms)| && streams(t) == Frames(ms)[..cut]
    ensures run[|run| - 1].threads[t].sent <= ms
    ensures forall d :: d in run[|run| - 1].slots[c].delivered && d.sender == t ==> d.index < |ms| && d.m == ms[d.index]
  {
    RunInputs(streams, run, t);
    PrefixSafety(ms, cut);
    BroadcastExactly(streams, run, c, t);
  }

  // ----- the relay never locks up -----

  /** A thread about to wait on a semaphore, or holding one, only touches initialised ones. */
  lemma OnlyInitialised(streams: Streams, run: seq<State>, t: nat)
    requires IsRun(streams, run) && At(run[|run| - 1], t)
    ensures var s := run[|run| - 1];
      match PcOf(s, t)
      case Idle => true
      case Loop(_, c) => c < s.noClient ==> c < |s.slots|
      case Writing(_, c, _) => c < |s.slots| && s.slots[c].sem == 0 && c != t
  {
    RunInv(streams, run);
    var s := run[|run| - 1];
    assert ThreadOk(s.threads[t], t, s.noClient);
    if PcOf(s, t).Writing? {
      assert SlotOk(s, PcOf(s, t).client) && Holds(s, t, PcOf(s, t).client);
    }
  }

  /** A step of a thread that has a message in hand. */
  predicate Advances(st: Step) { st.Skip? || st.Wait? || st.Write? || st.Post? || st.Exit? }

  /** While a message is in hand somewhere, some thread can go on with one: a waiting
      thread waits for one that is writing, which itself waits for nobody. And while one
      has arrived whole, its thread can take it. */
  lemma NeverLocksUp(streams: Streams, run: seq<State>, t: nat) returns (st: Step)
    requires IsRun(streams, run) && At(run[|run| - 1], t)
    requires !PcOf(run[|run| - 1], t).Idle? || Receive(run[|run| - 1].threads[t].inbox).Some?
    ensures (Advances(st) || st == Forward(t)) && Enabled(run[|run| - 1], st)
    ensures !PcOf(run[|run| - 1], t).Idle? ==> Advances(st)
  {
    RunInv(streams, run);
    var s := run[|run| - 1];
    OnlyInitialised(streams, run, t);
    var pc := PcOf(s, t);
    if pc.Idle? {
      st := Forward(t);
    } else if pc.Writing? {
      st := WriterStep(s, t);
    } else if pc.client >= s.noClient {
      st := Exit(t);
    } else if pc.client == t {
      st := Skip(t);
    } else if s.slots[pc.client].sem > 0 {
      st := Wait(t);
    } else {
      assert SlotOk(s, pc.client);
      var u: nat :| Holds(s, u, pc.client);
      st := WriterStep(s, u);
    }
  }

  lemma WriterStep(s: State, t: nat) returns (st: Step)
    requires Inv(s) && At(s, t) && PcOf(s, t).Writing?
    ensures Advances(st) && Enabled(s, st)
  {
    assert ThreadOk(s.threads[t], t, s.noClient);
    var Writing(m, c, off) := PcOf(s, t);
    st := if off == |Frame(m)| then Post(t) else Write(t, |Frame(m)| - off);
  }

  /** How many steps a thread may still need for the message in hand. */
  function Left(pc: Pc, noClient: nat): nat {
    match pc
    case Idle => 0
    case Loop(m, c) => 1 + Turns(m, if c <= noClient then noClient - c else 0)
    case Writing(m, c, off) =>
      (if off <= |Frame(m)| then |Frame(m)| - off else 0) + 2 + Turns(m, if c < noClient then noClient - c - 1 else 0)
  }

  function Turns(m: Message, n: nat): nat { n * (|Frame(m)| + 3) }

  lemma TurnsNext(m: Message, n: nat)
    requires n > 0
    ensures Turns(m, n) == Turns(m, n - 1) + |Frame(m)| + 3
  {
  }

  function WorkLeft(threads: seq<Thread>, noClient: nat): nat {
    if threads == [] then 0
    else Left(threads[|threads| - 1].pc, noClient) + WorkLeft(threads[..|threads| - 1], noClient)
  }

  lemma {:induction false} WorkUpdate(threads: seq<Thread>, t: nat, th: Thread, noClient: nat)
    requires t < |threads| && Left(th.pc, noClient) < Left(threads[t].pc, noClient)
    ensures WorkLeft(threads[t := th], noClient) < WorkLeft(threads, noClient)
  {
    var k := |threads| - 1;
    if t == k {
      assert threads[t := th][..k] == threads[..k];
    } else {
      assert threads[t := th][..k] == threads[..k][t := th];
      WorkUpdate(threads[..k], t, th, noClient);
    }
  }

  /** Every such step uses up work, so with no new client and no new message every message
      in hand is delivered after finitely many, whatever the order of the threads and
      however short the writes. */
  lemma WorkDecreases(streams: Streams, run: seq<State>, st: Step)
    requires IsRun(streams, run) && Advances(st) && Enabled(run[|run| - 1], st)
    ensures var s := run[|run| - 1];
      var s' := After(s, st, []);
      s'.noClient == s.noClient && WorkLeft(s'.threads, s'.noClient) < WorkLeft(s.threads, s.noClient)
  {
    RunInv(streams, run);
    var s := run[|run| - 1];
    var t, s' := st.t, After(s, st, []);
    assert ThreadOk(s.threads[t], t, s.noClient);
    var pc := PcOf(s, t);
    if pc.Loop? && pc.client < s.noClient {
      TurnsNext(pc.m, s.noClient - pc.client);
    }
    assert s'.threads == s.threads[t := s'.threads[t]];
    WorkUpdate(s.threads, t, s'.threads[t], s.noClient);
  }

  /** A new client can be accepted, or the last one set up, until there are MAX_CLIENTS. */
  lemma AcceptsUntilFull(streams: Streams, run: seq<State>) returns (st: Step)
    requires IsRun(streams, run) && run[|run| - 1].noClient < MAX_CLIENTS
    ensures (st.Accept? || st.Spawn? || st.Publish?) && Enabled(run[|run| - 1], st)
  {
    RunInv(streams, run);
    var s := run[|run| - 1];
    st := if |s.slots| == s.noClient then Accept else if |s.threads| == s.noClient then Spawn else Publish;
  }

  function Unread(threads: seq<Thread>): nat {
    if threads == [] then 0
    else |threads[|threads| - 1].inbox| + Unread(threads[..|threads| - 1])
  }

  lemma {:induction false} UnreadUpdate(threads: seq<Thread>, t: nat, th: Thread)
    requires t < |threads|
    ensures Unread(threads[t := th]) == Unread(threads) - |threads[t].inbox| + |th.inbox|
  {
    var k := |threads| - 1;
    if t == k {
      assert threads[t := th][..k] == threads[..k];
    } else {
      assert threads[t := th][..k] == threads[..k][t := th];
      UnreadUpdate(threads[..k], t, th);
    }
  }

  /** Taking a message leaves less to read, and no other step of a client's thread more: with
      no new client only finitely many steps remain. */
  lemma UnreadDecreases(s: State, st: Step)
    requires Enabled(s, st) && (Advances(st) || st.Forward?)
    ensures if st.Forward? then Unread(After(s, st, []).threads) < Unread(s.threads)
            else Unread(After(s, st, []).threads) == Unread(s.threads)
  {
    var t, s' := st.t, After(s, st, []);
    assert s'.threads == s.threads[t := s'.threads[t]];
    UnreadUpdate(s.threads, t, s'.threads[t]);
  }

  /** When they are done, every client's messages have been forwarded: all that arrived whole
      before its connection ended. */
  lemma AllForwarded(streams: Streams, run: seq<State>, t: nat)
    requires IsRun(streams, run) && At(run[|run| - 1], t)
    requires forall st :: Advances(st) || st.Forward? ==> !Enabled(run[|run| - 1], st)
    ensures PcOf(run[|run| - 1], t).Idle? && run[|run| - 1].threads[t].sent == ReceiveAll(streams(t))
  {
    var s := run[|run| - 1];
    if !PcOf(s, t).Idle? || Receive(s.threads[t].inbox).Some? {
      var st := NeverLocksUp(streams, run, t);
      assert false;
    }
    RunInputs(streams, run, t);
    assert ReceiveAll(s.threads[t].inbox) == [];
  }
}

/** The paravirtual /dev/crypto protocol as a step system: any number of guest threads,
    one lock, one virtqueue, one host handler. It refines the atomic host device. */
module CryptoProtocol {
  import opened Options
  import opened CryptoDevice
  import opened CryptoCodec

  /** A system call in progress: its request, its buffers, the guest file it works on. */
  datatype Call = Call(req: Request, a: seq<Addr>, file: nat)

  /** Where a guest thread is. `idx` is the call's place in the order of lock acquisition. */
  datatype Pc =
    | Idle
    | Built(call: Call)
    | Locked(call: Call, idx: nat)
    | Waiting(call: Call, idx: nat)
    | Got(call: Call, idx: nat)
    | Released(call: Call, idx: nat)
  {
    predicate Flying() { !Idle? }
    predicate Critical() { Locked? || Waiting? || Got? }
    predicate Placed() { Critical() || Released? }
  }

  datatype HostPc = HostIdle | Popped(e: Chain) | Handled(e: Chain)

  /** What a finished call handed to its caller. */
  datatype Result = Result(thread: nat, idx: nat, call: Call, value: Response)

  datatype State = State(
    mem: Memory, pcs: seq<Pc>, lock: Option<nat>,
    avail: seq<Chain>, used: seq<Chain>, host: HostPc, kicks: nat, dev: Dev,
    files: map<nat, int>, acquired: seq<(nat, Request)>, results: seq<Result>)

  datatype Step =
    | Begin(t: nat, call: Call)
    | Acquire(t: nat)
    | Push(t: nat)
    | HostPop
    | HostHandle
    | HostPush
    | GetBuf(t: nat)
    | Unlock(t: nat)
    | Finish(t: nat)

  // ----- the concrete system -----

  function Lengths(q: seq<Chain>): nat { if q == [] then 0 else q[0].Length() + Lengths(q[1..]) }

  /** Descriptors in use by requests the guest has not got back. */
  function InRing(s: State): nat {
    Lengths(s.avail) + Lengths(s.used) + if s.host.HostIdle? then 0 else s.host.e.Length()
  }

  /** The kernel calls `release` only when no other call uses the file, and hands an
      `open` a file of its own; an ioctl or release works on the fd stored in its file. */
  ghost predicate MayBegin(s: State, call: Call) {
    && |call.a| == |Image(call.req)| && Distinct(call.a)
    && (forall x :: x in call.a ==> x !in s.mem)
    && match call.req
       case Open =>
         call.file !in s.files && forall u :: 0 <= u < |s.pcs| && s.pcs[u].Flying() ==> s.pcs[u].call.file != call.file
       case Close(fd) =>
         call.file in s.files && s.files[call.file] == fd
         && forall u :: 0 <= u < |s.pcs| && s.pcs[u].Flying() ==> s.pcs[u].call.file != call.file
       case _ =>
         call.file in s.files && s.files[call.file] == call.req.fd
         && forall u :: 0 <= u < |s.pcs| && s.pcs[u].Flying() && s.pcs[u].call.req.Close? ==> s.pcs[u].call.file != call.file
  }

  function ElementOf(call: Call): Chain
    requires |call.a| == |Image(call.req)|
  {
    Encode(call.req, call.a)
  }

  ghost predicate Next(cs: Suite, s: State, st: Step, s': State) {
    match st
    case Begin(t, call) =>
      && t < |s.pcs| && s.pcs[t] == Idle && MayBegin(s, call)
      && Holds(s'.mem, call.a, Image(call.req))
      && s'.mem.Keys == s.mem.Keys + (set x | x in call.a)
      && (forall x :: x in s.mem ==> s'.mem[x] == s.mem[x])
      && s' == s.(mem := s'.mem, pcs := s.pcs[t := Built(call)])
    case Acquire(t) =>
      && t < |s.pcs| && s.pcs[t].Built? && s.lock == None
      && s' == s.(lock := Some(t), pcs := s.pcs[t := Locked(s.pcs[t].call, |s.acquired|)],
                  acquired := s.acquired + [(t, s.pcs[t].call.req)])
    case Push(t) =>
      && t < |s.pcs| && s.pcs[t].Locked? && s.lock == Some(t)
      && var c := s.pcs[t].call;
         && |c.a| == |Image(c.req)|
         // a full ring is reported by virtqueue_add_sgs, and the report is ignored
         && s' == s.(avail := if InRing(s) + ElementOf(c).Length() <= RING_SIZE then s.avail + [ElementOf(c)] else s.avail,
                     kicks := s.kicks + 1, pcs := s.pcs[t := Waiting(c, s.pcs[t].idx)])
    case HostPop =>
      // one notification makes the handler pop one element
      && s.kicks > 0 && s.host == HostIdle
      && s' == if s.avail == [] then s.(kicks := s.kicks - 1)
               else s.(kicks := s.kicks - 1, host := Popped(s.avail[0]), avail := s.avail[1..])
    case HostHandle =>
      && s.host.Popped?
      && HandleElement(cs, s.dev, s.mem, s.host.e, s'.dev, s'.mem)
      && s' == s.(dev := s'.dev, mem := s'.mem, host := Handled(s.host.e))
    case HostPush =>
      && s.host.Handled?
      && s' == s.(used := s.used + [s.host.e], host := HostIdle)
    case GetBuf(t) =>
      // whichever element comes back first, its token is not looked at
      && t < |s.pcs| && s.pcs[t].Waiting? && s.lock == Some(t) && s.used != []
      && s' == s.(used := s.used[1..], pcs := s.pcs[t := Got(s.pcs[t].call, s.pcs[t].idx)])
    case Unlock(t) =>
      && t < |s.pcs| && s.pcs[t].Got? && s.lock == Some(t)
      && s' == s.(lock := None, pcs := s.pcs[t := Released(s.pcs[t].call, s.pcs[t].idx)])
    case Finish(t) =>
      && t < |s.pcs| && s.pcs[t].Released?
      && var c := s.pcs[t].call;
         && |s'.results| == |s.results| + 1
         && var r := s'.results[|s.results|];
            && Replies(s.mem, c, r.value)
            && s' == s.(pcs := s.pcs[t := Idle], results := s.results + [Result(t, s.pcs[t].idx, c, r.value)],
                        files := FilesAfter(s.files, c, r.value), mem := s.mem - Freed(c))
  }

  /** The buffers freed at the end of a call. */
  ghost function Freed(c: Call): set<Addr>
    requires |c.a| == |Image(c.req)|
  {
    (set x | x in c.a) - Leaked(c.req, c.a)
  }

  /** `value` is what the driver reads back from the call's buffers. */
  ghost predicate Replies(m: Memory, c: Call, value: Response) {
    && |c.a| == |Image(c.req)| && Fits(c.req, value)
    && (forall x :: x in c.a ==> x in m)
    && var img := seq(|c.a|, j requires 0 <= j < |c.a| && c.a[j] in m => m[c.a[j]]);
       && (c.req.Open? ==> img[1].Word?)
       && (!c.req.Open? && !c.req.Close? ==> img[3].Word?)
       && (c.req.GetSession? ==> img[5].SessionBuf?)
       && (c.req.Crypt? ==> img[7].Bytes?)
       && value == ReadBack(c.req, img)
  }

  /** An open always succeeds, with whatever fd the host returned; the failure test in
      the driver compares a pointer. */
  function FilesAfter(files: map<nat, int>, c: Call, value: Response): map<nat, int>
    requires Fits(c.req, value)
  {
    if c.req.Open? then files[c.file := value.fd]
    else if c.req.Close? then files - {c.file}
    else files
  }

  ghost predicate Initial(s: State, dev0: Dev) {
    && (forall t :: 0 <= t < |s.pcs| ==> s.pcs[t] == Idle)
    && s.lock == None && s.avail == [] && s.used == [] && s.host == HostIdle && s.kicks == 0
    && s.dev == dev0 && s.files == map[] && s.acquired == [] && s.results == []
  }

  // ----- the atomic system -----

  /** The requests served so far, in order, with their responses, and the states of the
      device in between. */
  datatype Abstract = Abstract(threads: seq<nat>, reqs: seq<Request>, resps: seq<Response>, devs: seq<Dev>)

  ghost predicate AtomicInit(a: Abstract, dev0: Dev) { a == Abstract([], [], [], [dev0]) }

  ghost predicate AtomicStep(cs: Suite, a: Abstract, a': Abstract, t: nat, req: Request, resp: Response) {
    && |a.devs| > 0 && |a'.devs| > 0
    && DevStep(cs, a.devs[|a.devs| - 1], req, a'.devs[|a'.devs| - 1], resp)
    && a' == Abstract(a.threads + [t], a.reqs + [req], a.resps + [resp], a.devs + [a'.devs[|a'.devs| - 1]])
  }

  // ----- the refinement relation -----

  /** The atomic history is a possible one and ends in the present state of the device;
      it follows the order in which the lock was acquired. */
  ghost predicate HistoryOk(cs: Suite, s: State, a: Abstract) {
    && Serves(cs, a.devs, a.reqs, a.resps) && |a.threads| == |a.reqs|
    && a.devs[|a.reqs|] == s.dev
    && |a.reqs| <= |s.acquired|
    && (forall i :: 0 <= i < |a.reqs| ==> (a.threads[i], a.reqs[i]) == s.acquired[i] && Fits(a.reqs[i], a.resps[i]))
  }

  ghost predicate RingEmpty(s: State) { s.avail == [] && s.used == [] && s.host == HostIdle && s.kicks == 0 }

  /** The one outstanding element is in exactly one place, and `n` says whether it has
      been served already. */
  ghost predicate Outstanding(s: State, e: Chain, n: nat) {
    || (s.avail == [e] && s.host == HostIdle && s.used == [] && s.kicks == 1 && n + 1 == |s.acquired|)
    || (s.avail == [] && s.host == Popped(e) && s.used == [] && s.kicks == 0 && n + 1 == |s.acquired|)
    || (s.avail == [] && s.host == Handled(e) && s.used == [] && s.kicks == 0 && n == |s.acquired|)
    || (s.avail == [] && s.host == HostIdle && s.used == [e] && s.kicks == 0 && n == |s.acquired|)
  }

  ghost predicate LockOk(s: State, n: nat) {
    && (forall t :: 0 <= t < |s.pcs| ==> (s.pcs[t].Critical() <==> s.lock == Some(t)))
    && (forall t :: 0 <= t < |s.pcs| && s.pcs[t].Flying() ==> |s.pcs[t].call.a| == |Image(s.pcs[t].call.req)|)
    && (forall t :: 0 <= t < |s.pcs| && s.pcs[t].Placed() ==>
          s.pcs[t].idx < |s.acquired| && s.acquired[s.pcs[t].idx] == (t, s.pcs[t].call.req))
    && (forall t :: 0 <= t < |s.pcs| && s.pcs[t].Released? ==> s.pcs[t].idx < n)
    && match s.lock
       case None => RingEmpty(s) && n == |s.acquired|
       case Some(h) =>
         && h < |s.pcs| && s.pcs[h].Critical() && s.pcs[h].idx + 1 == |s.acquired|
         && if s.pcs[h].Locked? then RingEmpty(s) && n + 1 == |s.acquired|
            else if s.pcs[h].Got? then RingEmpty(s) && n == |s.acquired|
            else Outstanding(s, ElementOf(s.pcs[h].call), n)
  }

  ghost predicate IsServed(pc: Pc, n: nat) { pc.Placed() && pc.idx < n }

  /** What the buffers of a call hold: as built before it is served, with the replies after. */
  ghost predicate BuffersOk(m: Memory, pc: Pc, a: Abstract)
    requires pc.Flying() && |pc.call.a| == |Image(pc.call.req)| && |a.resps| == |a.reqs|
  {
    && Distinct(pc.call.a)
    && if IsServed(pc, |a.reqs|) then
         Fits(pc.call.req, a.resps[pc.idx]) && Holds(m, pc.call.a, ImageAfter(pc.call.req, pc.call.a, a.resps[pc.idx]))
       else
         Holds(m, pc.call.a, Image(pc.call.req))
  }

  ghost predicate MemoryOk(s: State, a: Abstract)
    requires LockOk(s, |a.reqs|) && |a.resps| == |a.reqs|
  {
    && (forall t :: 0 <= t < |s.pcs| && s.pcs[t].Flying() ==> BuffersOk(s.mem, s.pcs[t], a))
    && (forall t, u :: 0 <= t < u < |s.pcs| && s.pcs[t].Flying() && s.pcs[u].Flying() ==>
          forall x :: x in s.pcs[t].call.a ==> x !in s.pcs[u].call.a)
  }

  /** Every finished call got the response of its own request, up to the key pointer. */
  ghost predicate ResultOk(r: Result, a: Abstract)
    requires |a.threads| == |a.reqs| == |a.resps|
  {
    && r.idx < |a.reqs| && a.threads[r.idx] == r.thread && a.reqs[r.idx] == r.call.req
    && |r.call.a| == |Image(r.call.req)| && Fits(r.call.req, a.resps[r.idx])
    && r.value == Observed(r.call.req, r.call.a, a.resps[r.idx])
  }

  ghost predicate ResultsOk(s: State, a: Abstract)
    requires |a.threads| == |a.reqs| == |a.resps|
  {
    && (forall i :: 0 <= i < |s.results| ==> ResultOk(s.results[i], a))
    && (forall i, j :: 0 <= i < j < |s.results| ==> s.results[i].idx != s.results[j].idx)
    && (forall i, t :: 0 <= i < |s.results| && 0 <= t < |s.pcs| && s.pcs[t].Placed() ==> s.results[i].idx != s.pcs[t].idx)
  }

  ghost predicate Refines(cs: Suite, s: State, a: Abstract) {
    && HistoryOk(cs, s, a)
    && LockOk(s, |a.reqs|)
    && MemoryOk(s, a)
    && ResultsOk(s, a)
  }

  lemma InitialRefines(cs: Suite, s: State, dev0: Dev)
    requires Initial(s, dev0)
    ensures Refines(cs, s, Abstract([], [], [], [dev0]))
  {
  }
}

/** Every run of the paravirtual protocol is a run of the atomic device. */
module CryptoRefinement {
  import opened Options
  import opened CryptoDevice
  import opened CryptoCodec
  import opened CryptoProtocol

  lemma BeginRefines(cs: Suite, s: State, t: nat, call: Call, s': State, a: Abstract)
    requires Refines(cs, s, a) && Next(cs, s, Begin(t, call), s')
    ensures Refines(cs, s', a)
  {
    BeginLock(s, t, call, s', |a.reqs|);
    BeginMemory(s, t, call, s', a);
  }

  lemma BeginMemory(s: State, t: nat, call: Call, s': State, a: Abstract)
    requires LockOk(s, |a.reqs|) && LockOk(s', |a.reqs|) && |a.resps| == |a.reqs| && MemoryOk(s, a)
    requires t < |s.pcs| && s.pcs[t] == Idle && s'.pcs == s.pcs[t := Built(call)]
    requires Distinct(call.a) && Holds(s'.mem, call.a, Image(call.req)) && forall x :: x in call.a ==> x !in s.mem
    requires forall x :: x in s.mem ==> x in s'.mem && s'.mem[x] == s.mem[x]
    ensures MemoryOk(s', a)
  {
    forall u | 0 <= u < |s.pcs| && s.pcs[u].Flying()
      ensures BuffersOk(s'.mem, s.pcs[u], a) && forall x :: x in s.pcs[u].call.a ==> x !in call.a
    {
      assert BuffersOk(s.mem, s.pcs[u], a);
    }
    assert BuffersOk(s'.mem, s'.pcs[t], a);
  }

  /** Thread t moves on within its call, without being served. */
  lemma MoveMemory(s: State, t: nat, s': State, a: Abstract)
    requires LockOk(s, |a.reqs|) && LockOk(s', |a.reqs|) && |a.resps| == |a.reqs| && MemoryOk(s, a) && s'.mem == s.mem
    requires t < |s.pcs| == |s'.pcs| && s'.pcs == s.pcs[t := s'.pcs[t]]
    requires s.pcs[t].Flying() && s'.pcs[t].Flying() && s'.pcs[t].call == s.pcs[t].call
    requires IsServed(s'.pcs[t], |a.reqs|) == IsServed(s.pcs[t], |a.reqs|)
    requires IsServed(s.pcs[t], |a.reqs|) ==> s'.pcs[t].idx == s.pcs[t].idx
    ensures MemoryOk(s', a)
  {
    forall u | 0 <= u < |s'.pcs| && s'.pcs[u].Flying() ensures BuffersOk(s'.mem, s'.pcs[u], a) {
      assert BuffersOk(s.mem, s.pcs[u], a);
    }
  }

  lemma BeginLock(s: State, t: nat, call: Call, s': State, n: nat)
    requires LockOk(s, n) && t < |s.pcs| && s.pcs[t] == Idle && |call.a| == |Image(call.req)|
    requires s' == s.(mem := s'.mem, pcs := s.pcs[t := Built(call)])
    ensures LockOk(s', n)
  {
  }

  lemma AcquireLock(s: State, t: nat, s': State, n: nat)
    requires LockOk(s, n) && t < |s.pcs| && s.pcs[t].Built? && s.lock == None
    requires s' == s.(lock := Some(t), pcs := s.pcs[t := Locked(s.pcs[t].call, |s.acquired|)],
                      acquired := s.acquired + [(t, s.pcs[t].call.req)])
    ensures LockOk(s', n)
  {
  }

  lemma PushLock(s: State, t: nat, s': State, n: nat)
    requires LockOk(s, n) && t < |s.pcs| && s.pcs[t].Locked? && s.lock == Some(t)
    requires s' == s.(avail := s.avail + [ElementOf(s.pcs[t].call)], kicks := s.kicks + 1,
                      pcs := s.pcs[t := Waiting(s.pcs[t].call, s.pcs[t].idx)])
    ensures LockOk(s', n)
  {
  }

  lemma GetBufLock(s: State, t: nat, s': State, n: nat)
    requires LockOk(s, n) && t < |s.pcs| && s.pcs[t].Waiting? && s.lock == Some(t) && s.used != []
    requires s' == s.(used := s.used[1..], pcs := s.pcs[t := Got(s.pcs[t].call, s.pcs[t].idx)])
    ensures LockOk(s', n) && s.used[0] == ElementOf(s.pcs[t].call)
  {
  }

  lemma UnlockLock(s: State, t: nat, s': State, n: nat)
    requires LockOk(s, n) && t < |s.pcs| && s.pcs[t].Got? && s.lock == Some(t)
    requires s' == s.(lock := None, pcs := s.pcs[t := Released(s.pcs[t].call, s.pcs[t].idx)])
    ensures LockOk(s', n)
  {
  }

  lemma AcquireRefines(cs: Suite, s: State, t: nat, s': State, a: Abstract)
    requires Refines(cs, s, a) && Next(cs, s, Acquire(t), s')
    ensures Refines(cs, s', a)
  {
    AcquireLock(s, t, s', |a.reqs|);
    MoveMemory(s, t, s', a);
  }

  lemma PushRefines(cs: Suite, s: State, t: nat, s': State, a: Abstract)
    requires Refines(cs, s, a) && Next(cs, s, Push(t), s')
    ensures Refines(cs, s', a) && s'.avail == [ElementOf(s.pcs[t].call)]
  {
    EncodeFits(s.pcs[t].call.req, s.pcs[t].call.a);
    PushLock(s, t, s', |a.reqs|);
    MoveMemory(s, t, s', a);
  }

  lemma HostMovesRefine(cs: Suite, s: State, st: Step, s': State, a: Abstract)
    requires Refines(cs, s, a) && Next(cs, s, st, s') && (st == HostPop || st == HostPush)
    ensures Refines(cs, s', a)
  {
  }

  lemma HandledLock(s: State, s': State, n: nat)
    requires LockOk(s, n) && s.host.Popped?
    requires s' == s.(dev := s'.dev, mem := s'.mem, host := Handled(s.host.e))
    ensures LockOk(s', n + 1)
    ensures s.lock.Some? && s.lock.value < |s.pcs| && s.pcs[s.lock.value].Waiting? && s.pcs[s.lock.value].idx == n
    ensures s.host.e == ElementOf(s.pcs[s.lock.value].call)
    ensures forall u :: 0 <= u < |s.pcs| && s.pcs[u].Placed() && u != s.lock.value ==> s.pcs[u].idx != n
  {
  }

  lemma HandledHistory(cs: Suite, s: State, s': State, a: Abstract, a': Abstract, t: nat, req: Request, resp: Response)
    requires HistoryOk(cs, s, a) && |a.reqs| < |s.acquired| && s.acquired[|a.reqs|] == (t, req)
    requires DevStep(cs, s.dev, req, s'.dev, resp) && s'.acquired == s.acquired
    requires a' == Abstract(a.threads + [t], a.reqs + [req], a.resps + [resp], a.devs + [s'.dev])
    ensures HistoryOk(cs, s', a') && AtomicStep(cs, a, a', t, req, resp)
  {
  }

  /** The step at which a request takes effect. */
  lemma HostHandleRefines(cs: Suite, s: State, s': State, a: Abstract) returns (a': Abstract)
    requires Refines(cs, s, a) && Next(cs, s, HostHandle, s')
    ensures Refines(cs, s', a')
    ensures exists t, req, resp :: AtomicStep(cs, a, a', t, req, resp)
  {
    HandledLock(s, s', |a.reqs|);
    var h := s.lock.value;
    var c, n := s.pcs[h].call, |a.reqs|;
    assert BuffersOk(s.mem, s.pcs[h], a);
    var resp := HandleIsAtomic(cs, s.dev, s.mem, c.req, c.a, s'.dev, s'.mem);
    a' := Abstract(a.threads + [h], a.reqs + [c.req], a.resps + [resp], a.devs + [s'.dev]);
    HandledHistory(cs, s, s', a, a', h, c.req, resp);
    HandledMemory(s, s', a, a', h);
    forall i | 0 <= i < |s.results| ensures ResultOk(s.results[i], a') {
      assert ResultOk(s.results[i], a);
    }
  }

  lemma HandledMemory(s: State, s': State, a: Abstract, a': Abstract, h: nat)
    requires LockOk(s, |a.reqs|) && LockOk(s', |a'.reqs|) && |a.resps| == |a.reqs| && MemoryOk(s, a) && s'.pcs == s.pcs
    requires |a'.resps| == |a'.reqs| == |a.reqs| + 1 && a'.resps[..|a.resps|] == a.resps
    requires h < |s.pcs| && s.pcs[h].Waiting? && s.pcs[h].idx == |a.reqs|
    requires forall u :: 0 <= u < |s.pcs| && s.pcs[u].Placed() && u != h ==> s.pcs[u].idx != |a.reqs|
    requires OnlyAt(s.mem, s'.mem, s.pcs[h].call.a) && BuffersOk(s'.mem, s.pcs[h], a')
    ensures MemoryOk(s', a')
  {
    forall u | 0 <= u < |s.pcs| && s.pcs[u].Flying() && u != h ensures BuffersOk(s'.mem, s.pcs[u], a') {
      assert BuffersOk(s.mem, s.pcs[u], a);
      assert forall x :: x in s.pcs[u].call.a ==> x !in s.pcs[h].call.a;
      BuffersElsewhere(s.mem, s'.mem, s.pcs[u], a, a', s.pcs[h].call.a);
    }
  }

  /** Serving one call leaves the buffers of every other call alone. */
  lemma BuffersElsewhere(m: Memory, m': Memory, pc: Pc, a: Abstract, a': Abstract, touched: seq<Addr>)
    requires pc.Flying() && |pc.call.a| == |Image(pc.call.req)|
    requires |a.resps| == |a.reqs| && |a'.resps| == |a'.reqs| == |a.reqs| + 1 && a'.resps[..|a.resps|] == a.resps
    requires pc.Placed() ==> pc.idx != |a.reqs|
    requires BuffersOk(m, pc, a) && OnlyAt(m, m', touched)
    requires forall x :: x in pc.call.a ==> x !in touched
    ensures BuffersOk(m', pc, a')
  {
    assert IsServed(pc, |a.reqs|) ==> a'.resps[pc.idx] == a.resps[pc.idx];
  }

  lemma GetBufRefines(cs: Suite, s: State, t: nat, s': State, a: Abstract)
    requires Refines(cs, s, a) && Next(cs, s, GetBuf(t), s')
    ensures Refines(cs, s', a)
    ensures s.used[0] == ElementOf(s.pcs[t].call)
  {
    GetBufLock(s, t, s', |a.reqs|);
    MoveMemory(s, t, s', a);
  }

  lemma UnlockRefines(cs: Suite, s: State, t: nat, s': State, a: Abstract)
    requires Refines(cs, s, a) && Next(cs, s, Unlock(t), s')
    ensures Refines(cs, s', a)
  {
    UnlockLock(s, t, s', |a.reqs|);
    MoveMemory(s, t, s', a);
  }

  /** What the driver reads back is the response of its own request. */
  lemma FinishReads(cs: Suite, s: State, t: nat, a: Abstract, value: Response)
    requires Refines(cs, s, a) && t < |s.pcs| && s.pcs[t].Released? && Replies(s.mem, s.pcs[t].call, value)
    ensures ResultOk(Result(t, s.pcs[t].idx, s.pcs[t].call, value), a)
  {
    var pc := s.pcs[t];
    var c, resp := pc.call, a.resps[pc.idx];
    assert BuffersOk(s.mem, pc, a);
    assert DevStep(cs, a.devs[pc.idx], a.reqs[pc.idx], a.devs[pc.idx + 1], resp);
    var img := seq(|c.a|, j requires 0 <= j < |c.a| && c.a[j] in s.mem => s.mem[c.a[j]]);
    assert img == ImageAfter(c.req, c.a, resp);
    ReadBackObserves(c.req, c.a, resp);
  }

  lemma BuffersKept(m: Memory, pc: Pc, a: Abstract, freed: set<Addr>)
    requires pc.Flying() && |pc.call.a| == |Image(pc.call.req)| && |a.resps| == |a.reqs| && BuffersOk(m, pc, a)
    requires forall x :: x in pc.call.a ==> x !in freed
    ensures BuffersOk(m - freed, pc, a)
  {
  }

  /** Freeing one call's buffers leaves the buffers of every other call alone. */
  lemma FinishMemory(s: State, t: nat, a: Abstract)
    requires LockOk(s, |a.reqs|) && |a.resps| == |a.reqs| && MemoryOk(s, a)
    requires t < |s.pcs| && s.pcs[t].Released?
    ensures forall u :: 0 <= u < |s.pcs| && s.pcs[u].Flying() && u != t ==>
      BuffersOk(s.mem - Freed(s.pcs[t].call), s.pcs[u], a)
  {
    forall u | 0 <= u < |s.pcs| && s.pcs[u].Flying() && u != t
      ensures BuffersOk(s.mem - Freed(s.pcs[t].call), s.pcs[u], a)
    {
      assert forall x :: x in s.pcs[u].call.a ==> x !in s.pcs[t].call.a;
      BuffersKept(s.mem, s.pcs[u], a, Freed(s.pcs[t].call));
    }
  }

  lemma FinishLock(s: State, t: nat, s': State, n: nat)
    requires LockOk(s, n) && t < |s.pcs| && s.pcs[t].Released?
    requires s' == s.(pcs := s.pcs[t := Idle], results := s'.results, files := s'.files, mem := s'.mem)
    ensures LockOk(s', n)
  {
  }

  lemma FinishResults(s: State, t: nat, s': State, a: Abstract, r: Result)
    requires |a.threads| == |a.reqs| == |a.resps| && LockOk(s, |a.reqs|) && ResultsOk(s, a)
    requires t < |s.pcs| && s.pcs[t].Released? && r.idx == s.pcs[t].idx && ResultOk(r, a)
    requires s'.pcs == s.pcs[t := Idle] && s'.results == s.results + [r]
    ensures ResultsOk(s', a)
  {
    forall i | 0 <= i < |s.results| ensures s'.results[i] == s.results[i] && s.results[i].idx != r.idx {}
    forall u | 0 <= u < |s'.pcs| && s'.pcs[u].Placed() ensures s'.pcs[u] == s.pcs[u] && s.pcs[u].idx != r.idx {}
  }

  lemma FinishRefines(cs: Suite, s: State, t: nat, s': State, a: Abstract)
    requires Refines(cs, s, a) && Next(cs, s, Finish(t), s')
    ensures Refines(cs, s', a)
  {
    var r := s'.results[|s.results|];
    FinishReads(cs, s, t, a, r.value);
    FinishMemory(s, t, a);
    FinishLock(s, t, s', |a.reqs|);
    FinishResults(s, t, s', a, r);
    assert forall u :: 0 <= u < |s'.pcs| && s'.pcs[u].Flying() ==> u != t && s'.pcs[u] == s.pcs[u];
  }

  /** Every step of the protocol is a step of the atomic device or changes nothing there. */
  lemma StepRefines(cs: Suite, s: State, st: Step, s': State, a: Abstract) returns (a': Abstract)
    requires Refines(cs, s, a) && Next(cs, s, st, s')
    ensures Refines(cs, s', a')
    ensures if st == HostHandle then exists t, req, resp :: AtomicStep(cs, a, a', t, req, resp) else a' == a
  {
    a' := a;
    match st
    case Begin(t, call) => BeginRefines(cs, s, t, call, s', a);
    case Acquire(t) => AcquireRefines(cs, s, t, s', a);
    case Push(t) => PushRefines(cs, s, t, s', a);
    case HostPop => HostMovesRefine(cs, s, st, s', a);
    case HostHandle => a' := HostHandleRefines(cs, s, s', a);
    case HostPush => HostMovesRefine(cs, s, st, s', a);
    case GetBuf(t) => GetBufRefines(cs, s, t, s', a);
    case Unlock(t) => UnlockRefines(cs, s, t, s', a);
    case Finish(t) => FinishRefines(cs, s, t, s', a);
  }

  ghost predicate IsRun(cs: Suite, dev0: Dev, run: seq<State>, steps: seq<Step>) {
    && |run| == |steps| + 1 && Initial(run[0], dev0)
    && forall i :: 0 <= i < |steps| ==> Next(cs, run[i], steps[i], run[i + 1])
  }

  /** The atomic device moves, or nothing happens. */
  ghost predicate AtomicOrStutter(cs: Suite, a: Abstract, a': Abstract) {
    a' == a || exists t, req, resp :: AtomicStep(cs, a, a', t, req, resp)
  }

  /** The refinement: along every run there is a run of the atomic device, serving the
      requests one at a time in the order in which the lock was acquired, such that every
      finished call got the answer of its own request. */
  lemma {:induction false} RunRefines(cs: Suite, dev0: Dev, run: seq<State>, steps: seq<Step>, n: nat) returns (atomic: seq<Abstract>)
    requires IsRun(cs, dev0, run, steps) && n <= |steps|
    ensures |atomic| == n + 1 && AtomicInit(atomic[0], dev0)
    ensures forall i :: 0 <= i <= n ==> Refines(cs, run[i], atomic[i])
    ensures forall i :: 0 <= i < n ==> AtomicOrStutter(cs, atomic[i], atomic[i + 1])
  {
    if n == 0 {
      atomic := [Abstract([], [], [], [dev0])];
      InitialRefines(cs, run[0], dev0);
    } else {
      var prefix := RunRefines(cs, dev0, run, steps, n - 1);
      var last := StepRefines(cs, run[n - 1], steps[n - 1], run[n], prefix[n - 1]);
      assert AtomicOrStutter(cs, prefix[n - 1], last);
      atomic := prefix + [last];
      forall i | 0 <= i <= n ensures Refines(cs, run[i], atomic[i]) {
        if i < n {
          assert atomic[i] == prefix[i];
        }
      }
      forall i | 0 <= i < n ensures AtomicOrStutter(cs, atomic[i], atomic[i + 1]) {
        if i < n - 1 {
          assert atomic[i] == prefix[i] && atomic[i + 1] == prefix[i + 1];
        }
      }
    }
  }

  /** In every reachable state at most one request is in the virtqueue, the handler has a
      pending notification exactly when there is something to pop, and a thread about to
      push finds the ring empty, so its chain of at most 8 always fits. */
  lemma AtMostOneOutstanding(cs: Suite, s: State, a: Abstract)
    requires Refines(cs, s, a)
    ensures |s.avail| + |s.used| + (if s.host == HostIdle then 0 else 1) <= 1
    ensures s.kicks == |s.avail|
    ensures forall t :: 0 <= t < |s.pcs| && s.pcs[t].Locked? ==>
      InRing(s) == 0 && ElementOf(s.pcs[t].call).Length() <= SGS_MAX <= RING_SIZE
  {
    forall t | 0 <= t < |s.pcs| && s.pcs[t].Locked?
      ensures InRing(s) == 0 && ElementOf(s.pcs[t].call).Length() <= SGS_MAX <= RING_SIZE
    {
      EncodeFits(s.pcs[t].call.req, s.pcs[t].call.a);
    }
  }

  // ----- no call is left behind -----

  function Weight(pc: Pc): nat {
    match pc
    case Idle => 0
    case Built(_) => 8
    case Locked(_, _) => 7
    case Waiting(_, _) => 3
    case Got(_, _) => 2
    case Released(_, _) => 1
  }

  function Weights(pcs: seq<Pc>): nat { if pcs == [] then 0 else Weights(pcs[..|pcs| - 1]) + Weight(pcs[|pcs| - 1]) }

  lemma {:induction false} WeightsUpdate(pcs: seq<Pc>, t: nat, pc: Pc)
    requires t < |pcs|
    ensures Weights(pcs[t := pc]) == Weights(pcs) - Weight(pcs[t]) + Weight(pc)
  {
    var n := |pcs| - 1;
    if t == n {
      assert pcs[t := pc][..n] == pcs[..n];
    } else {
      WeightsUpdate(pcs[..n], t, pc);
      assert pcs[t := pc][..n] == pcs[..n][t := pc];
    }
  }

  /** The work left until every call has finished. */
  function WorkLeft(s: State): nat {
    Weights(s.pcs) + 3 * |s.avail| + if s.host.Popped? then 2 else if s.host.Handled? then 1 else 0
  }

  lemma StepWork(cs: Suite, s: State, st: Step, s': State)
    requires Next(cs, s, st, s') && !st.Begin?
    requires st.Push? ==> |s'.avail| <= |s.avail| + 1
    requires st == HostPop ==> s.avail != []
    ensures WorkLeft(s') < WorkLeft(s)
  {
    if st.Acquire? || st.Push? || st.GetBuf? || st.Unlock? || st.Finish? {
      WeightsUpdate(s.pcs, st.t, s'.pcs[st.t]);
    }
  }

  /** Every step but the start of a call brings the calls in progress nearer their end. */
  lemma StepMakesProgress(cs: Suite, s: State, st: Step, s': State, a: Abstract)
    requires Refines(cs, s, a) && Next(cs, s, st, s') && !st.Begin?
    ensures WorkLeft(s') < WorkLeft(s)
  {
    AtMostOneOutstanding(cs, s, a);
    StepWork(cs, s, st, s');
  }

  lemma RepliesAreThere(cs: Suite, s: State, t: nat, a: Abstract) returns (value: Response)
    requires Refines(cs, s, a) && t < |s.pcs| && s.pcs[t].Released?
    ensures Replies(s.mem, s.pcs[t].call, value)
  {
    var pc := s.pcs[t];
    var c := pc.call;
    assert BuffersOk(s.mem, pc, a);
    var img := seq(|c.a|, j requires 0 <= j < |c.a| && c.a[j] in s.mem => s.mem[c.a[j]]);
    assert img == ImageAfter(c.req, c.a, a.resps[pc.idx]);
    value := ReadBack(c.req, img);
  }

  /** As long as a call is in progress some step other than starting a call is possible:
      the handler never loses a notification. */
  lemma NeverStuck(cs: Suite, s: State, a: Abstract, t: nat) returns (st: Step, s': State)
    requires Refines(cs, s, a) && t < |s.pcs| && s.pcs[t].Flying()
    ensures !st.Begin? && Next(cs, s, st, s')
  {
    match s.lock
    case None =>
      var c := s.pcs[t].call;
      if s.pcs[t].Built? {
        st := Acquire(t);
        s' := s.(lock := Some(t), pcs := s.pcs[t := Locked(c, |s.acquired|)], acquired := s.acquired + [(t, c.req)]);
      } else {
        var value := RepliesAreThere(cs, s, t, a);
        st := Finish(t);
        s' := s.(pcs := s.pcs[t := Idle], results := s.results + [Result(t, s.pcs[t].idx, c, value)],
                 files := FilesAfter(s.files, c, value), mem := s.mem - Freed(c));
      }
    case Some(h) =>
      var c, idx := s.pcs[h].call, s.pcs[h].idx;
      if s.pcs[h].Locked? {
        st := Push(h);
        s' := s.(avail := if InRing(s) + ElementOf(c).Length() <= RING_SIZE then s.avail + [ElementOf(c)] else s.avail,
                 kicks := s.kicks + 1, pcs := s.pcs[h := Waiting(c, idx)]);
      } else if s.pcs[h].Got? {
        st := Unlock(h);
        s' := s.(lock := None, pcs := s.pcs[h := Released(c, idx)]);
      } else if s.avail != [] {
        st := HostPop;
        s' := s.(kicks := s.kicks - 1, host := Popped(s.avail[0]), avail := s.avail[1..]);
      } else if s.host.Popped? {
        st := HostHandle;
        assert BuffersOk(s.mem, s.pcs[h], a);
        var d', resp := DevTotal(cs, s.dev, c.req);
        var m' := AtomicIsHandled(cs, s.dev, s.mem, c.req, c.a, d', resp);
        s' := s.(dev := d', mem := m', host := Handled(s.host.e));
      } else if s.host.Handled? {
        st := HostPush;
        s' := s.(used := s.used + [s.host.e], host := HostIdle);
      } else {
        st := GetBuf(h);
        s' := s.(used := s.used[1..], pcs := s.pcs[h := Got(c, idx)]);
      }
  }

  /** Once no more calls are started: at most `WorkLeft` more steps are possible, and none
      is only when every call has finished, whatever the order of the threads. So finitely
      many calls all finish. */
  lemma FiniteCallsFinish(cs: Suite, dev0: Dev, run: seq<State>, steps: seq<Step>, n: nat)
    requires IsRun(cs, dev0, run, steps) && n <= |steps|
    requires forall i :: n <= i < |steps| ==> !steps[i].Begin?
    ensures |steps| - n + WorkLeft(run[|steps|]) <= WorkLeft(run[n])
    ensures (forall st, s' :: Next(cs, run[|steps|], st, s') ==> st.Begin?) ==>
      forall t :: 0 <= t < |run[|steps|].pcs| ==> run[|steps|].pcs[t] == Idle
  {
    var atomic := RunRefines(cs, dev0, run, steps, |steps|);
    StepsWork(cs, run, steps, atomic, n, |steps|);
    if forall st, s' :: Next(cs, run[|steps|], st, s') ==> st.Begin? {
      forall t | 0 <= t < |run[|steps|].pcs| ensures run[|steps|].pcs[t] == Idle {
        if run[|steps|].pcs[t].Flying() {
          var st, s' := NeverStuck(cs, run[|steps|], atomic[|steps|], t);
        }
      }
    }
  }

  lemma {:induction false} StepsWork(cs: Suite, run: seq<State>, steps: seq<Step>, atomic: seq<Abstract>, n: nat, m: nat)
    requires n <= m < |run| == |atomic| == |steps| + 1
    requires forall i :: n <= i < m ==> Next(cs, run[i], steps[i], run[i + 1]) && !steps[i].Begin?
    requires forall i :: n <= i <= m ==> Refines(cs, run[i], atomic[i])
    ensures m - n + WorkLeft(run[m]) <= WorkLeft(run[n])
  {
    if n < m {
      StepsWork(cs, run, steps, atomic, n, m - 1);
      StepMakesProgress(cs, run[m - 1], steps[m - 1], run[m], atomic[m - 1]);
    }
  }
}

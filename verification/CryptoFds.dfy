/** Conservation of host file descriptors in the paravirtual protocol. */
module CryptoFds {
  import opened CryptoDevice
  import opened CryptoProtocol
  import opened CryptoRefinement

  /** Calls in progress respect the life time of guest files: an open has a file of its
      own, a release is alone on its file, an ioctl is not beside a release. */
  ghost predicate CallOk(s: State, t: nat)
    requires t < |s.pcs| && s.pcs[t].Flying()
  {
    var c := s.pcs[t].call;
    match c.req
    case Open =>
      c.file !in s.files
      && forall u :: 0 <= u < |s.pcs| && u != t && s.pcs[u].Flying() ==> s.pcs[u].call.file != c.file
    case Close(fd) =>
      c.file in s.files && s.files[c.file] == fd
      && forall u :: 0 <= u < |s.pcs| && u != t && s.pcs[u].Flying() ==> s.pcs[u].call.file != c.file
    case _ =>
      c.file in s.files && s.files[c.file] == c.req.fd
  }

  ghost predicate CallsOk(s: State) { forall t :: 0 <= t < |s.pcs| && s.pcs[t].Flying() ==> CallOk(s, t) }

  /** A release that the host has served but the guest has not finished. */
  predicate Closing(pc: Pc, n: nat) { pc.Placed() && pc.idx < n && pc.call.req.Close? }

  /** An open that the host has served, with an fd or -1, but the guest has not finished. */
  predicate Opening(pc: Pc, a: Abstract) {
    pc.Placed() && pc.idx < |a.resps| && pc.call.req.Open? && a.resps[pc.idx].Opened?
  }

  ghost function Closings(s: State, n: nat): set<nat> {
    set t | 0 <= t < |s.pcs| && Closing(s.pcs[t], n) :: s.pcs[t].call.file
  }

  ghost function Openings(s: State, a: Abstract): set<(nat, int)> {
    set t | 0 <= t < |s.pcs| && Opening(s.pcs[t], a) :: (s.pcs[t].call.file, a.resps[s.pcs[t].idx].fd)
  }

  /** `owner` maps every host fd opened through the device to the one guest file it
      belongs to: a file that stores it and is not being released, or one being created by
      an open that got it. The other fds of the host, and their sessions, are as at the
      start. */
  ghost predicate Owned(files: map<nat, int>, closing: set<nat>, opening: set<(nat, int)>, dev: Dev,
                        owner: map<int, nat>, dev0: Dev) {
    && dev.fds.Keys == dev0.fds.Keys + owner.Keys && owner.Keys !! dev0.fds.Keys
    && (forall fd :: fd in dev0.fds ==> fd >= 0 && dev.fds[fd] == dev0.fds[fd])
    && (forall fd :: fd in owner ==> fd >= 0)
    && (forall f :: f in files && files[f] >= 0 && f !in closing ==> files[f] in owner && owner[files[f]] == f)
    && (forall f, fd :: (f, fd) in opening && fd >= 0 ==> fd in owner && owner[fd] == f)
    && (forall fd :: fd in owner ==>
          || (owner[fd] in files && files[owner[fd]] == fd && owner[fd] !in closing)
          || (owner[fd], fd) in opening)
  }

  ghost predicate FdsOwned(s: State, a: Abstract, owner: map<int, nat>, dev0: Dev) {
    Owned(s.files, Closings(s, |a.reqs|), Openings(s, a), s.dev, owner, dev0)
  }

  ghost predicate FdInv(s: State, a: Abstract, owner: map<int, nat>, dev0: Dev) {
    CallsOk(s) && FdsOwned(s, a, owner, dev0)
  }

  lemma BeginStaysOk(s: State, t: nat, call: Call, s': State)
    requires CallsOk(s) && t < |s.pcs| && s.pcs[t] == Idle && MayBegin(s, call)
    requires s'.files == s.files && s'.pcs == s.pcs[t := Built(call)]
    ensures CallsOk(s')
  {
    forall u | 0 <= u < |s'.pcs| && s'.pcs[u].Flying() ensures CallOk(s', u) {
      assert u != t ==> CallOk(s, u);
    }
  }

  lemma FinishStaysOk(s: State, t: nat, value: Response, s': State)
    requires CallsOk(s) && t < |s.pcs| && s.pcs[t].Released? && Fits(s.pcs[t].call.req, value)
    requires s'.files == FilesAfter(s.files, s.pcs[t].call, value) && s'.pcs == s.pcs[t := Idle]
    ensures CallsOk(s')
  {
    assert CallOk(s, t);
    forall u | 0 <= u < |s'.pcs| && s'.pcs[u].Flying() ensures CallOk(s', u) {
      assert CallOk(s, u);
    }
  }

  /** The same calls are in progress, on the same files. */
  lemma SameCallsOk(s: State, s': State)
    requires CallsOk(s) && s'.files == s.files && |s'.pcs| == |s.pcs|
    requires forall u :: 0 <= u < |s.pcs| ==>
      s'.pcs[u].Flying() == s.pcs[u].Flying() && (s.pcs[u].Flying() ==> s'.pcs[u].call == s.pcs[u].call)
    ensures CallsOk(s')
  {
    forall u | 0 <= u < |s'.pcs| && s'.pcs[u].Flying() ensures CallOk(s', u) {
      assert CallOk(s, u);
    }
  }

  lemma CallsStayOk(cs: Suite, s: State, st: Step, s': State)
    requires CallsOk(s) && Next(cs, s, st, s')
    ensures CallsOk(s')
  {
    match st
    case Begin(t, call) => BeginStaysOk(s, t, call, s');
    case Finish(t) => FinishStaysOk(s, t, s'.results[|s.results|].value, s');
    case _ => SameCallsOk(s, s');
  }

  // ----- the four moves of an fd -----

  /** The host opens `fd` for a file that does not exist yet. */
  lemma FdOpened(files: map<nat, int>, closing: set<nat>, opening: set<(nat, int)>, dev: Dev, owner: map<int, nat>, dev0: Dev,
                 f: nat, fd: int)
    requires Owned(files, closing, opening, dev, owner, dev0) && fd >= 0 && fd !in dev.fds
    ensures Owned(files, closing, opening + {(f, fd)}, Dev(dev.fds[fd := map[]]), owner[fd := f], dev0)
  {
  }

  /** The guest stores the fd in the new file. */
  lemma FdStored(files: map<nat, int>, closing: set<nat>, opening: set<(nat, int)>, dev: Dev, owner: map<int, nat>, dev0: Dev,
                 f: nat, fd: int)
    requires Owned(files, closing, opening, dev, owner, dev0) && (f, fd) in opening && f !in files && f !in closing
    ensures Owned(files[f := fd], closing, opening - {(f, fd)}, dev, owner, dev0)
  {
  }

  /** The host closes the fd of a file being released. */
  lemma FdClosed(files: map<nat, int>, closing: set<nat>, opening: set<(nat, int)>, dev: Dev, owner: map<int, nat>, dev0: Dev,
                 f: nat, fd: int)
    requires Owned(files, closing, opening, dev, owner, dev0) && f in files && files[f] == fd && f !in closing
    requires forall x :: (f, x) !in opening
    ensures Owned(files, closing + {f}, opening, Dev(dev.fds - {fd}), owner - {fd}, dev0)
  {
    assert fd >= 0 ==> fd in owner && owner[fd] == f;
    forall x | x in owner && x != fd ensures owner[x] != f {}
  }

  /** The guest drops the file. */
  lemma FdDropped(files: map<nat, int>, closing: set<nat>, opening: set<(nat, int)>, dev: Dev, owner: map<int, nat>, dev0: Dev,
                  f: nat)
    requires Owned(files, closing, opening, dev, owner, dev0) && f in closing
    ensures Owned(files - {f}, closing - {f}, opening, dev, owner, dev0)
  {
  }

  // ----- what the steps of the protocol do to unfinished opens and releases -----

  /** The same releases and opens are served and unfinished in both states. */
  ghost predicate SameEnds(s: State, s': State, n: nat) {
    && |s'.pcs| == |s.pcs|
    && forall t :: 0 <= t < |s.pcs| ==>
         if s.pcs[t].Placed() && s.pcs[t].idx < n
         then s'.pcs[t].Placed() && s'.pcs[t].idx == s.pcs[t].idx && s'.pcs[t].call == s.pcs[t].call
         else !s'.pcs[t].Placed() || s'.pcs[t].idx >= n
  }

  lemma SameEndsSame(s: State, s': State, a: Abstract)
    requires |a.resps| == |a.reqs| && SameEnds(s, s', |a.reqs|)
    ensures Closings(s', |a.reqs|) == Closings(s, |a.reqs|) && Openings(s', a) == Openings(s, a)
  {
    forall f | f in Closings(s, |a.reqs|) ensures f in Closings(s', |a.reqs|) {
      var t :| 0 <= t < |s.pcs| && Closing(s.pcs[t], |a.reqs|) && s.pcs[t].call.file == f;
      assert Closing(s'.pcs[t], |a.reqs|);
    }
    forall o | o in Openings(s, a) ensures o in Openings(s', a) {
      var t :| 0 <= t < |s.pcs| && Opening(s.pcs[t], a) && o == (s.pcs[t].call.file, a.resps[s.pcs[t].idx].fd);
      assert Opening(s'.pcs[t], a);
    }
  }

  /** Steps that neither serve nor finish a call move no fd. */
  lemma QuietStep(cs: Suite, s: State, st: Step, s': State, a: Abstract, owner: map<int, nat>, dev0: Dev)
    requires FdsOwned(s, a, owner, dev0) && |a.resps| == |a.reqs| <= |s.acquired|
    requires Next(cs, s, st, s') && st != HostHandle && !st.Finish?
    ensures FdsOwned(s', a, owner, dev0)
  {
    assert SameEnds(s, s', |a.reqs|);
    SameEndsSame(s, s', a);
  }

  /** Nobody else has an unfinished open or release of the file that thread t opens or releases. */
  lemma AloneOnFile(s: State, a: Abstract, t: nat, n: nat)
    requires CallsOk(s) && t < |s.pcs| && s.pcs[t].Flying() && (s.pcs[t].call.req.Open? || s.pcs[t].call.req.Close?)
    ensures forall u :: 0 <= u < |s.pcs| && u != t && s.pcs[u].Flying() ==> s.pcs[u].call.file != s.pcs[t].call.file
    ensures s.pcs[t].call.file in Closings(s, n) ==> Closing(s.pcs[t], n)
    ensures forall x :: (s.pcs[t].call.file, x) in Openings(s, a) ==> Opening(s.pcs[t], a) && x == a.resps[s.pcs[t].idx].fd
  {
    assert CallOk(s, t);
  }

  lemma ClosingsAfterFinish(s: State, t: nat, s': State, a: Abstract)
    requires CallsOk(s) && t < |s.pcs| && s.pcs[t].Released? && s.pcs[t].idx < |a.reqs| && s'.pcs == s.pcs[t := Idle]
    ensures var (n, c) := (|a.reqs|, s.pcs[t].call);
      && (c.req.Close? ==> c.file in Closings(s, n))
      && Closings(s', n) == Closings(s, n) - if c.req.Close? then {c.file} else {}
  {
    var n, c := |a.reqs|, s.pcs[t].call;
    if c.req.Close? {
      AloneOnFile(s, a, t, n);
      assert Closing(s.pcs[t], n);
    }
    forall f | f in Closings(s, n) && !(c.req.Close? && f == c.file) ensures f in Closings(s', n) {
      var u :| 0 <= u < |s.pcs| && Closing(s.pcs[u], n) && s.pcs[u].call.file == f;
      assert Closing(s'.pcs[u], n);
    }
    forall f | f in Closings(s', n) ensures f in Closings(s, n) && !(c.req.Close? && f == c.file) {
      var u :| 0 <= u < |s'.pcs| && Closing(s'.pcs[u], n) && s'.pcs[u].call.file == f;
      assert Closing(s.pcs[u], n);
    }
  }

  lemma OpeningsAfterFinish(s: State, t: nat, s': State, a: Abstract)
    requires CallsOk(s) && t < |s.pcs| && s.pcs[t].Released? && s.pcs[t].idx < |a.reqs| == |a.resps|
    requires Fits(s.pcs[t].call.req, a.resps[s.pcs[t].idx]) && s'.pcs == s.pcs[t := Idle]
    ensures var (c, resp) := (s.pcs[t].call, a.resps[s.pcs[t].idx]);
      && (c.req.Open? ==> (c.file, resp.fd) in Openings(s, a))
      && Openings(s', a) == Openings(s, a) - if c.req.Open? then {(c.file, resp.fd)} else {}
  {
    var c, resp := s.pcs[t].call, a.resps[s.pcs[t].idx];
    if c.req.Open? {
      AloneOnFile(s, a, t, |a.reqs|);
      assert Opening(s.pcs[t], a);
    }
    forall o | o in Openings(s, a) && !(c.req.Open? && o == (c.file, resp.fd)) ensures o in Openings(s', a) {
      var u :| 0 <= u < |s.pcs| && Opening(s.pcs[u], a) && o == (s.pcs[u].call.file, a.resps[s.pcs[u].idx].fd);
      assert Opening(s'.pcs[u], a);
    }
    forall o | o in Openings(s', a) ensures o in Openings(s, a) && !(c.req.Open? && o == (c.file, resp.fd)) {
      var u :| 0 <= u < |s'.pcs| && Opening(s'.pcs[u], a) && o == (s'.pcs[u].call.file, a.resps[s'.pcs[u].idx].fd);
      assert Opening(s.pcs[u], a);
    }
  }

  /** Finishing an open stores its fd in the new file; finishing a release drops the file. */
  lemma FinishStep(s: State, t: nat, s': State, a: Abstract, owner: map<int, nat>, dev0: Dev)
    requires FdInv(s, a, owner, dev0) && |a.resps| == |a.reqs| && t < |s.pcs| && s.pcs[t].Released?
    requires s.pcs[t].idx < |a.reqs| && Fits(s.pcs[t].call.req, a.resps[s.pcs[t].idx])
    requires s'.pcs == s.pcs[t := Idle] && s'.dev == s.dev
    requires s'.files == FilesAfter(s.files, s.pcs[t].call, a.resps[s.pcs[t].idx])
    ensures FdsOwned(s', a, owner, dev0)
  {
    var n, c := |a.reqs|, s.pcs[t].call;
    ClosingsAfterFinish(s, t, s', a);
    OpeningsAfterFinish(s, t, s', a);
    assert CallOk(s, t);
    if c.req.Open? {
      AloneOnFile(s, a, t, n);
      FdStored(s.files, Closings(s, n), Openings(s, a), s.dev, owner, dev0, c.file, a.resps[s.pcs[t].idx].fd);
    } else if c.req.Close? {
      FdDropped(s.files, Closings(s, n), Openings(s, a), s.dev, owner, dev0, c.file);
    }
  }

  /** Thread h's call, and no other, is served between the two histories. */
  ghost predicate ServesOne(s: State, s': State, a: Abstract, a': Abstract, h: nat) {
    && |a.resps| == |a.reqs| && |a'.reqs| == |a.reqs| + 1 == |a'.resps| && a'.resps[..|a.reqs|] == a.resps
    && h < |s.pcs| && s.pcs[h].Waiting? && s.pcs[h].idx == |a.reqs|
    && (forall u :: 0 <= u < |s.pcs| && u != h && s.pcs[u].Placed() ==> s.pcs[u].idx != |a.reqs|)
    && s'.pcs == s.pcs && s'.files == s.files
  }

  lemma ClosingsAfterServe(s: State, s': State, a: Abstract, a': Abstract, h: nat)
    requires ServesOne(s, s', a, a', h)
    ensures Closings(s', |a'.reqs|) == Closings(s, |a.reqs|) + if s.pcs[h].call.req.Close? then {s.pcs[h].call.file} else {}
  {
    var n, c := |a.reqs|, s.pcs[h].call;
    assert c.req.Close? ==> Closing(s'.pcs[h], n + 1);
    forall f | f in Closings(s, n) ensures f in Closings(s', n + 1) {
      var t :| 0 <= t < |s.pcs| && Closing(s.pcs[t], n) && s.pcs[t].call.file == f;
      assert Closing(s'.pcs[t], n + 1);
    }
    forall f | f in Closings(s', n + 1) ensures f in Closings(s, n) || (c.req.Close? && f == c.file) {
      var t :| 0 <= t < |s'.pcs| && Closing(s'.pcs[t], n + 1) && s'.pcs[t].call.file == f;
      assert t != h ==> Closing(s.pcs[t], n);
    }
  }

  lemma OpeningsAfterServe(s: State, s': State, a: Abstract, a': Abstract, h: nat)
    requires ServesOne(s, s', a, a', h) && Fits(s.pcs[h].call.req, a'.resps[|a.reqs|])
    ensures var (c, resp) := (s.pcs[h].call, a'.resps[|a.reqs|]);
      Openings(s', a') == Openings(s, a) + if c.req.Open? then {(c.file, resp.fd)} else {}
  {
    var c, resp := s.pcs[h].call, a'.resps[|a.reqs|];
    assert c.req.Open? ==> Opening(s'.pcs[h], a');
    forall o | o in Openings(s, a) ensures o in Openings(s', a') {
      var t :| 0 <= t < |s.pcs| && Opening(s.pcs[t], a) && o == (s.pcs[t].call.file, a.resps[s.pcs[t].idx].fd);
      assert Opening(s'.pcs[t], a');
    }
    forall o | o in Openings(s', a') ensures o in Openings(s, a) || (c.req.Open? && o == (c.file, resp.fd)) {
      var t :| 0 <= t < |s'.pcs| && Opening(s'.pcs[t], a') && o == (s'.pcs[t].call.file, a'.resps[s'.pcs[t].idx].fd);
      assert t != h ==> Opening(s.pcs[t], a);
    }
  }

  /** Serving an open makes its new fd the file's; serving a release gives the file's fd up. */
  lemma HandleStep(cs: Suite, s: State, s': State, a: Abstract, a': Abstract, owner: map<int, nat>, dev0: Dev, h: nat)
      returns (owner': map<int, nat>)
    requires FdInv(s, a, owner, dev0) && ServesOne(s, s', a, a', h)
    requires DevStep(cs, s.dev, s.pcs[h].call.req, s'.dev, a'.resps[|a.reqs|])
    ensures FdsOwned(s', a', owner', dev0)
  {
    var n, c, resp := |a.reqs|, s.pcs[h].call, a'.resps[|a.reqs|];
    ClosingsAfterServe(s, s', a, a', h);
    OpeningsAfterServe(s, s', a, a', h);
    assert CallOk(s, h);
    owner' := owner;
    if c.req.Open? && resp.fd >= 0 {
      owner' := owner[resp.fd := c.file];
      FdOpened(s.files, Closings(s, n), Openings(s, a), s.dev, owner, dev0, c.file, resp.fd);
    } else if c.req.Close? {
      owner' := owner - {c.req.fd};
      AloneOnFile(s, a, h, n);
      FdClosed(s.files, Closings(s, n), Openings(s, a), s.dev, owner, dev0, c.file, c.req.fd);
    } else if !c.req.Open? {
      OwnedFd(s, a, owner, dev0, h);
    }
  }

  /** An ioctl works on an fd of its own file, or on none when the open failed: never on
      an fd of another file or of another user of the host. */
  lemma OwnedFd(s: State, a: Abstract, owner: map<int, nat>, dev0: Dev, h: nat)
    requires FdInv(s, a, owner, dev0) && h < |s.pcs| && s.pcs[h].Flying()
    requires !s.pcs[h].call.req.Open? && !s.pcs[h].call.req.Close?
    ensures var fd := s.pcs[h].call.req.fd;
      fd !in dev0.fds && (fd < 0 || (fd in owner && owner[fd] == s.pcs[h].call.file))
  {
    var c := s.pcs[h].call;
    assert CallOk(s, h);
    forall t | 0 <= t < |s.pcs| && Closing(s.pcs[t], |a.reqs|) ensures s.pcs[t].call.file != c.file {
      assert CallOk(s, t);
    }
  }

  lemma StepKeepsFds(cs: Suite, s: State, st: Step, s': State, a: Abstract, owner: map<int, nat>, dev0: Dev)
      returns (a': Abstract, owner': map<int, nat>)
    requires Refines(cs, s, a) && FdInv(s, a, owner, dev0) && Next(cs, s, st, s')
    ensures Refines(cs, s', a') && FdInv(s', a', owner', dev0)
  {
    CallsStayOk(cs, s, st, s');
    a' := StepRefines(cs, s, st, s', a);
    owner' := owner;
    if st == HostHandle {
      var n := |a.reqs|;
      HandledLock(s, s', n);
      assert DevStep(cs, a'.devs[n], a'.reqs[n], a'.devs[n + 1], a'.resps[n]);
      owner' := HandleStep(cs, s, s', a, a', owner, dev0, s.lock.value);
    } else if st.Finish? {
      FinishReads(cs, s, st.t, a, s'.results[|s.results|].value);
      FinishStep(s, st.t, s', a, owner, dev0);
    } else {
      QuietStep(cs, s, st, s', a, owner, dev0);
    }
  }

  lemma {:induction false} RunKeepsFds(cs: Suite, dev0: Dev, run: seq<State>, steps: seq<Step>, n: nat)
      returns (a: Abstract, owner: map<int, nat>)
    requires IsRun(cs, dev0, run, steps) && n <= |steps| && forall fd :: fd in dev0.fds ==> fd >= 0
    ensures Refines(cs, run[n], a) && FdInv(run[n], a, owner, dev0)
  {
    if n == 0 {
      a, owner := Abstract([], [], [], [dev0]), map[];
      InitialRefines(cs, run[0], dev0);
    } else {
      a, owner := RunKeepsFds(cs, dev0, run, steps, n - 1);
      a, owner := StepKeepsFds(cs, run[n - 1], steps[n - 1], run[n], a, owner, dev0);
    }
  }

  /** After any run, with no call in progress: the host fds opened through the device are
      exactly the nonnegative fds stored in guest files, no two files share one, and every
      other fd of the host, with its sessions, is as it was. */
  lemma HostFdsConserved(cs: Suite, dev0: Dev, run: seq<State>, steps: seq<Step>)
    requires IsRun(cs, dev0, run, steps) && forall fd :: fd in dev0.fds ==> fd >= 0
    requires forall t :: 0 <= t < |run[|steps|].pcs| ==> run[|steps|].pcs[t] == Idle
    ensures var s := run[|steps|];
      && (forall fd :: fd in s.dev.fds && fd !in dev0.fds <==> fd >= 0 && exists f :: f in s.files && s.files[f] == fd)
      && (forall f, g :: f in s.files && g in s.files && s.files[f] == s.files[g] >= 0 ==> f == g)
      && (forall fd :: fd in dev0.fds ==> fd in s.dev.fds && s.dev.fds[fd] == dev0.fds[fd])
  {
    var s := run[|steps|];
    var a, owner := RunKeepsFds(cs, dev0, run, steps, |steps|);
    assert Closings(s, |a.reqs|) == {} && Openings(s, a) == {};
    forall fd ensures fd in s.dev.fds && fd !in dev0.fds <==> fd >= 0 && exists f :: f in s.files && s.files[f] == fd {
      assert fd in s.dev.fds && fd !in dev0.fds <==> fd in owner;
    }
  }
}

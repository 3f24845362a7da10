/** The driver's file operations as they run with the lock held: build the request, push
    it, notify the host, spin for the reply, copy the results back, free the buffers. */
module CryptoFile {
  import opened CryptoDevice
  import opened CryptoCodec
  import opened CryptoDriver

  const ENODEV: int := -19

  class CryptoOpenFile {
    var hostFd: int

    constructor ()
      ensures hostFd == -1
    {
      hostFd := -1;
    }
  }

  class CryptoChrdev {
    const kernel: GuestKernel
    const vq: HostBackend

    constructor (cs: Suite)
      ensures Quiet() && kernel.mem == map[] && vq.dev == Dev(map[]) && vq.suite == cs
    {
      kernel := new GuestKernel();
      vq := new HostBackend(cs);
    }

    // Nobody is using the queue, and the host has found every buffer it looked for.
    ghost predicate Quiet()
      reads this, kernel, vq
    {
      kernel.Valid() && vq.avail == [] && vq.used == [] && !vq.strayed
    }

    // A notification runs the host's handler on the guest's memory.
    method Kick()
      requires vq.avail != [] && Decodable(kernel.mem, vq.avail[0])
      modifies kernel`mem, vq
      ensures HandleElement(vq.suite, old(vq.dev), old(kernel.mem), old(vq.avail)[0], vq.dev, kernel.mem)
      ensures vq.avail == old(vq.avail)[1..] && vq.used == old(vq.used) + [old(vq.avail)[0]] && vq.strayed == old(vq.strayed)
      ensures ServedBy(old(kernel.mem), old(vq.avail)[0], old(vq.log), kernel.mem, vq.log)
    {
      vq.mem := kernel.mem;
      vq.VqHandleOutput();
      kernel.mem := vq.mem;
    }

    // One request is served as one step of the atomic device, with its reply in the
    // request's own buffers and nothing else touched.
    method Transact(req: Request, a: seq<Addr>, chain: Chain) returns (ghost resp: Response)
      requires Quiet() && Distinct(a) && Holds(kernel.mem, a, Image(req)) && chain == Encode(req, a)
      modifies kernel`mem, vq
      ensures Quiet() && DevStep(vq.suite, old(vq.dev), req, vq.dev, resp)
      ensures Holds(kernel.mem, a, ImageAfter(req, a, resp)) && OnlyAt(old(kernel.mem), kernel.mem, a)
      ensures vq.log == old(vq.log) + Made(req, a, resp)
    {
      EncodedIsDecodable(kernel.mem, req, a);
      vq.avail := vq.avail + [chain];
      Kick();
      // The reply is there: spinning for it ends at the first look.
      vq.used := vq.used[1..];
      resp := HandleIsAtomic(vq.suite, old(vq.dev), old(kernel.mem), req, a, vq.dev, kernel.mem);
      ServedIsMade(old(kernel.mem), req, a, old(vq.log), kernel.mem, vq.log, resp);
    }

    // What the driver finds in its buffers.
    method CopyBack(req: Request, a: seq<Addr>, ghost resp: Response) returns (value: Response)
      requires |a| == |Image(req)| && Fits(req, resp) && Holds(kernel.mem, a, ImageAfter(req, a, resp))
      requires req.Unsupported? ==> resp == Returned(0)
      ensures value == Observed(req, a, resp)
    {
      ReadBackObserves(req, a, resp);
      match req {
        case Open => value := Opened(kernel.mem[a[1]].w);
        case Close(_) => value := Closed;
        case GetSession(_, _, _) => value := SessionGot(kernel.mem[a[3]].w, kernel.mem[a[5]].s);
        case EndSession(_, _) => value := Returned(kernel.mem[a[3]].w);
        case Crypt(_, _, _, _) => value := Crypted(kernel.mem[a[3]].w, kernel.mem[a[7]].b);
        case Unsupported(_, _) => value := Returned(kernel.mem[a[3]].w);
      }
    }

    method Kfree(buffers: set<Addr>)
      requires kernel.Valid()
      modifies kernel`mem
      ensures kernel.Valid() && kernel.mem == old(kernel.mem) - buffers
    {
      kernel.mem := kernel.mem - buffers;
    }

    // The guest's memory is back to what it was.
    lemma AllFreed(m0: Memory, m1: Memory, m2: Memory, a: seq<Addr>)
      requires Extended(m0, m1, a) && OnlyAt(m1, m2, a)
      ensures m2 - (set x | x in a) == m0
    {
    }

    // ... but for one buffer that was not freed.
    lemma AllButOneFreed(m0: Memory, m1: Memory, m2: Memory, a: seq<Addr>, kept: Addr)
      requires Extended(m0, m1, a) && OnlyAt(m1, m2, a) && kept in a
      ensures kept !in m0 && m2 - ((set x | x in a) - {kept}) == m0[kept := m2[kept]]
    {
    }

    // An open fails only for a minor number without a device, and then forgets its two
    // buffers. Otherwise it succeeds whatever the host returns: the fd, or -1, goes into
    // the file.
    method Open(drv: CryptoDriverData, minor: nat) returns (ret: int, crof: CryptoOpenFile)
      requires Quiet() && drv.Valid()
      modifies kernel, vq
      ensures Quiet() && fresh(crof) && (ret == 0 || ret == ENODEV)
      ensures ret == ENODEV <==> forall i :: 0 <= i < |drv.devs| ==> drv.devs[i].minor != minor
      ensures ret == 0 ==> kernel.mem == old(kernel.mem) && DevStep(vq.suite, old(vq.dev), Request.Open, vq.dev, Opened(crof.hostFd))
      ensures vq.log == old(vq.log) + if ret == 0 then [HostCall(Request.Open, Opened(crof.hostFd))] else []
      ensures ret == ENODEV ==> vq.dev == old(vq.dev) && crof.hostFd == -1
      ensures ret == ENODEV ==> exists a :: |a| == 2 && Extended(old(kernel.mem), kernel.mem, a)
    {
      crof := new CryptoOpenFile();
      var a, sgs, numOut, numIn := kernel.BuildOpenOrClose(Request.Open);
      var found, crdev := drv.GetByMinor(minor);
      if !found {
        return ENODEV, crof;
      }
      ghost var built := kernel.mem;
      ghost var resp := Transact(Request.Open, a, Chain(sgs[..numOut], sgs[numOut..numOut + numIn]));
      var value := CopyBack(Request.Open, a, resp);
      crof.hostFd := value.fd;
      AllFreed(old(kernel.mem), built, kernel.mem, a);
      Kfree(set x | x in a);
      ret := 0;
    }

    method Release(crof: CryptoOpenFile) returns (ret: int)
      requires Quiet()
      modifies kernel, vq
      ensures Quiet() && ret == 0 && kernel.mem == old(kernel.mem)
      ensures DevStep(vq.suite, old(vq.dev), Close(crof.hostFd), vq.dev, Closed)
      ensures vq.log == old(vq.log) + [HostCall(Close(crof.hostFd), Closed)]
    {
      var req := Close(crof.hostFd);
      var a, sgs, numOut, numIn := kernel.BuildOpenOrClose(req);
      ghost var built := kernel.mem;
      ghost var resp := Transact(req, a, Chain(sgs[..numOut], sgs[numOut..numOut + numIn]));
      AllFreed(old(kernel.mem), built, kernel.mem, a);
      Kfree(set x | x in a);
      ret := 0;
    }

    // An ioctl gives its caller the device's answer to that very request. The key pointer
    // of a new session comes back as an address of the driver's own. The buffer of the
    // return value, and no other, stays behind.
    method Ioctl(crof: CryptoOpenFile, req: Request) returns (value: Response, ghost key: Addr, ghost leak: Addr)
      requires Quiet() && !req.Open? && !req.Close? && req.fd == crof.hostFd
      modifies kernel, vq
      ensures Quiet() && Answers(vq.suite, old(vq.dev), req, vq.dev, value, key)
      ensures AskedOnce(old(vq.log), req, value, vq.log)
      ensures leak !in old(kernel.mem) && kernel.mem == old(kernel.mem)[leak := Word(value.ret)]
    {
      var a, sgs, numOut, numIn := kernel.BuildIoctl(req);
      ghost var built := kernel.mem;
      ghost var resp := Transact(req, a, Chain(sgs[..numOut], sgs[numOut..numOut + numIn]));
      value := CopyBack(req, a, resp);
      key, leak := if req.GetSession? then a[4] else 0, a[3];
      ObservedAnswers(vq.suite, old(vq.dev), req, a, vq.dev, resp);
      AllButOneFreed(old(kernel.mem), built, kernel.mem, a, leak);
      assert kernel.mem[leak] == ImageAfter(req, a, resp)[3];
      Kfree((set x | x in a) - {a[3]});
    }
  }

  /** The host has been asked for `req`, up to its pointers, exactly once, and has answered
      `value`; for an unsupported command it has not been asked. */
  ghost predicate AskedOnce(log: seq<HostCall>, req: Request, value: Response, log': seq<HostCall>) {
    if req.Unsupported? then log' == log && value == Returned(0)
    else |log'| == |log| + 1 && log'[..|log|] == log && log'[|log|].resp == value && UpToPointers(req, log'[|log|].req)
  }

  ghost predicate UpToPointers(req: Request, asked: Request) {
    match req
    case GetSession(_, _, sop) => asked.GetSession? && asked == req.(sop := sop.(key := asked.sop.key))
    case Crypt(_, cop, _, _) =>
      asked.Crypt? && asked == req.(cop := cop.(src := asked.cop.src, iv := asked.cop.iv, dst := asked.cop.dst))
    case _ => asked == req
  }

  lemma ObservedAnswers(cs: Suite, d: Dev, req: Request, a: seq<Addr>, d': Dev, resp: Response)
    requires !req.Open? && !req.Close? && |a| == |Image(req)| && DevStep(cs, d, req, d', resp)
    ensures Answers(cs, d, req, d', Observed(req, a, resp), if req.GetSession? then a[4] else 0)
    ensures ImageAfter(req, a, resp)[3] == Word(Observed(req, a, resp).ret)
  {
    if req.GetSession? {
      assert resp == SessionGot(resp.ret, Observed(req, a, resp).sop.(key := resp.sop.key));
    }
  }

  /** `value` is the device's answer to `req`, with the key pointer of a session replaced by `key`. */
  ghost predicate Answers(cs: Suite, d: Dev, req: Request, d': Dev, value: Response, key: Addr) {
    && !value.Opened? && !value.Closed?
    && if req.GetSession? then
         value.SessionGot? && exists was ::
           DevStep(cs, d, req, d', SessionGot(value.ret, value.sop.(key := was))) && value.sop.key == key
       else
         DevStep(cs, d, req, d', value)
  }
}

/** The host's /dev/crypto as an atomic device: file descriptors, sessions per
    descriptor, and a cipher about which nothing is assumed here. */
module CryptoDevice {

  type Byte = b: nat | b < 256

  /** struct session_op: `key` and `mackey` are pointers. */
  datatype SessionOp = SessionOp(cipher: nat, mac: nat, keylen: nat, key: int, mackeylen: nat, mackey: int, ses: nat)

  /** struct crypt_op: `src`, `dst`, `mac` and `iv` are pointers. */
  datatype CryptOp = CryptOp(ses: nat, op: nat, flags: nat, len: nat, src: int, dst: int, mac: int, iv: int)

  datatype Session = Session(cipher: nat, key: seq<Byte>)

  /** `run(session, op, iv, src)` encrypts or decrypts. */
  datatype Suite = Suite(run: (Session, nat, seq<Byte>, seq<Byte>) -> seq<Byte>)

  datatype Dev = Dev(fds: map<int, map<nat, Session>>)

  datatype Request =
    | Open
    | Close(fd: int)
    | GetSession(fd: int, keyBytes: seq<Byte>, sop: SessionOp)
    | EndSession(fd: int, ses: nat)
    | Crypt(fd: int, cop: CryptOp, src: seq<Byte>, iv: seq<Byte>)
    | Unsupported(fd: int, cmd: nat)

  datatype Response =
    | Opened(fd: int)
    | Closed
    | SessionGot(ret: int, sop: SessionOp)
    | Returned(ret: int)
    | Crypted(ret: int, dst: seq<Byte>)

  /** One request put to the device, and its answer. */
  datatype HostCall = HostCall(req: Request, resp: Response)

  predicate Failed(resp: Response) {
    match resp
    case Opened(fd) => fd < 0
    case Closed => false
    case SessionGot(ret, _) => ret != 0
    case Returned(ret) => ret != 0
    case Crypted(ret, _) => ret != 0
  }

  function ZeroBytes(n: nat): (s: seq<Byte>)
    ensures |s| == n
  {
    seq(n, _ => 0)
  }

  function AddSession(d: Dev, fd: int, ses: nat, s: Session): Dev
    requires fd in d.fds
  {
    var sessions: map<nat, Session> := d.fds[fd] + map[ses := s];
    Dev(d.fds[fd := sessions])
  }

  function DropSession(d: Dev, fd: int, ses: nat): Dev
    requires fd in d.fds
  {
    Dev(d.fds[fd := d.fds[fd] - {ses}])
  }

  /** Whether a response is of the kind the request asks for. */
  predicate Fits(req: Request, resp: Response) {
    match req
    case Open => resp.Opened?
    case Close(_) => resp.Closed?
    case GetSession(_, _, _) => resp.SessionGot?
    case EndSession(_, _) => resp.Returned?
    case Crypt(_, _, _, _) => resp.Crypted?
    case Unsupported(_, _) => resp.Returned?
  }

  /** One request served atomically. Opening, creating a session and ciphering may fail,
      and then change nothing; an unsupported command is ignored by the host handler. */
  ghost predicate DevStep(cs: Suite, d: Dev, req: Request, d': Dev, resp: Response) {
    && Fits(req, resp)
    && match req
       case Open =>
         || (resp.fd < 0 && d' == d)
         || (resp.fd >= 0 && resp.fd !in d.fds && d' == Dev(d.fds[resp.fd := map[]]))
       case Close(fd) =>
         d' == Dev(d.fds - {fd})
       case GetSession(fd, keyBytes, sop) =>
         || (resp.ret != 0 && resp.sop == sop && d' == d)
         || (resp.ret == 0 && fd in d.fds && resp.sop.ses !in d.fds[fd] && resp.sop == sop.(ses := resp.sop.ses)
             && d' == AddSession(d, fd, resp.sop.ses, Session(sop.cipher, keyBytes)))
       case EndSession(fd, ses) =>
         if fd in d.fds && ses in d.fds[fd]
         then resp.ret == 0 && d' == DropSession(d, fd, ses)
         else resp.ret != 0 && d' == d
       case Crypt(fd, cop, src, iv) =>
         && d' == d
         && (|| (resp.ret != 0 && resp.dst == ZeroBytes(cop.len))
             || (resp.ret == 0 && fd in d.fds && cop.ses in d.fds[fd]
                 && resp.dst == cs.run(d.fds[fd][cop.ses], cop.op, iv, src)))
       case Unsupported(_, _) =>
         resp.ret == 0 && d' == d
  }

  /** Every request can be served in every state. */
  lemma DevTotal(cs: Suite, d: Dev, req: Request) returns (d': Dev, resp: Response)
    ensures DevStep(cs, d, req, d', resp)
  {
    match req
    case Open => d', resp := d, Opened(-1);
    case Close(fd) => d', resp := Dev(d.fds - {fd}), Closed;
    case GetSession(_, _, sop) => d', resp := d, SessionGot(-1, sop);
    case EndSession(fd, ses) =>
      if fd in d.fds && ses in d.fds[fd] {
        d', resp := DropSession(d, fd, ses), Returned(0);
      } else {
        d', resp := d, Returned(-1);
      }
    case Crypt(_, cop, _, _) => d', resp := d, Crypted(-1, ZeroBytes(cop.len));
    case Unsupported(_, _) => d', resp := d, Returned(0);
  }

  /** The device states passed through when the requests `reqs` get the responses `resps`. */
  ghost predicate Serves(cs: Suite, ds: seq<Dev>, reqs: seq<Request>, resps: seq<Response>) {
    && |ds| == |reqs| + 1 && |resps| == |reqs|
    && forall i :: 0 <= i < |reqs| ==> DevStep(cs, ds[i], reqs[i], ds[i + 1], resps[i])
  }

  /** Opening the device, ciphering one buffer under a session of its own, ending the
      session and closing again leaves the device as it was, and delivers the cipher's
      output for exactly that key, direction, vector and buffer. */
  lemma CipherCallLeavesNoTrace(cs: Suite, ds: seq<Dev>, reqs: seq<Request>, resps: seq<Response>)
    requires Serves(cs, ds, reqs, resps) && |reqs| == 5
    requires reqs[0] == Open && resps[0].Opened? && resps[0].fd >= 0
    requires reqs[1].GetSession? && reqs[1].fd == resps[0].fd && resps[1].SessionGot? && resps[1].ret == 0
    requires reqs[2].Crypt? && reqs[2].fd == resps[0].fd && reqs[2].cop.ses == resps[1].sop.ses
    requires resps[2].Crypted? && resps[2].ret == 0
    requires reqs[3] == EndSession(resps[0].fd, resps[1].sop.ses)
    requires reqs[4] == Close(resps[0].fd)
    ensures ds[5] == ds[0] && resps[3] == Returned(0)
    ensures resps[2].dst == cs.run(Session(reqs[1].sop.cipher, reqs[1].keyBytes), reqs[2].cop.op, reqs[2].iv, reqs[2].src)
  {
    assert DevStep(cs, ds[0], reqs[0], ds[1], resps[0]);
    assert DevStep(cs, ds[1], reqs[1], ds[2], resps[1]);
    assert DevStep(cs, ds[2], reqs[2], ds[3], resps[2]);
    assert DevStep(cs, ds[3], reqs[3], ds[4], resps[3]);
    assert DevStep(cs, ds[4], reqs[4], ds[5], resps[4]);
    assert ds[5].fds == ds[0].fds;
  }

  // ----- the same with other callers in between -----

  /** A request that can change what is behind `fd`. */
  predicate Touches(req: Request, fd: int) {
    (req.Close? || req.GetSession? || req.EndSession?) && req.fd == fd
  }

  lemma {:induction false} Untouched(cs: Suite, ds: seq<Dev>, reqs: seq<Request>, resps: seq<Response>, fd: int, i: nat, j: nat)
    requires Serves(cs, ds, reqs, resps) && i <= j <= |reqs| && fd in ds[i].fds
    requires forall k :: i <= k < j ==> !Touches(reqs[k], fd)
    ensures fd in ds[j].fds && ds[j].fds[fd] == ds[i].fds[fd]
  {
    if i < j {
      Untouched(cs, ds, reqs, resps, fd, i, j - 1);
      assert DevStep(cs, ds[j - 1], reqs[j - 1], ds[j], resps[j - 1]);
    }
  }

  /** Every descriptor but `fd`, with its sessions, is the same in both states. */
  ghost predicate OthersKept(d: Dev, d': Dev, fd: int) { d'.fds - {fd} == d.fds - {fd} }

  lemma OneStep(cs: Suite, ds: seq<Dev>, reqs: seq<Request>, resps: seq<Response>, fd: int, k: nat)
    requires Serves(cs, ds, reqs, resps) && k < |reqs|
    requires if reqs[k].Open? then resps[k].Opened? && resps[k].fd == fd else reqs[k].Unsupported? || reqs[k].fd == fd
    ensures DevStep(cs, ds[k], reqs[k], ds[k + 1], resps[k]) && OthersKept(ds[k], ds[k + 1], fd)
  {
  }

  /** The five requests of a cipher call on `fd`, all but the closing ones successful, at
      the places `o` to `l`; nobody else touches the descriptor in between. */
  ghost predicate CipherCall(reqs: seq<Request>, resps: seq<Response>, fd: int, o: nat, g: nat, c: nat, e: nat, l: nat) {
    && o < g < c < e < l < |reqs| == |resps|
    && reqs[o] == Open && resps[o] == Opened(fd) && fd >= 0
    && reqs[g].GetSession? && reqs[g].fd == fd && resps[g].SessionGot? && resps[g].ret == 0
    && reqs[c].Crypt? && reqs[c].fd == fd && reqs[c].cop.ses == resps[g].sop.ses
    && resps[c].Crypted? && resps[c].ret == 0
    && reqs[e] == EndSession(fd, resps[g].sop.ses)
    && reqs[l] == Close(fd)
    && (forall k :: o < k < l && k != g && k != e ==> !Touches(reqs[k], fd))
  }

  /** Among any other requests, a cipher call gets the cipher's output, ends its session,
      leaves no descriptor behind, and changes no other descriptor. */
  lemma CipherCallAmongOthers(cs: Suite, ds: seq<Dev>, reqs: seq<Request>, resps: seq<Response>, fd: int,
                              o: nat, g: nat, c: nat, e: nat, l: nat)
    requires Serves(cs, ds, reqs, resps) && CipherCall(reqs, resps, fd, o, g, c, e, l)
    ensures resps[c].dst == cs.run(Session(reqs[g].sop.cipher, reqs[g].keyBytes), reqs[c].cop.op, reqs[c].iv, reqs[c].src)
    ensures resps[e] == Returned(0) && fd in ds[l].fds && ds[l].fds[fd] == map[]
    ensures fd !in ds[o].fds && fd !in ds[l + 1].fds
    ensures OthersKept(ds[o], ds[o + 1], fd) && OthersKept(ds[g], ds[g + 1], fd) && OthersKept(ds[c], ds[c + 1], fd)
    ensures OthersKept(ds[e], ds[e + 1], fd) && OthersKept(ds[l], ds[l + 1], fd)
  {
    OneStep(cs, ds, reqs, resps, fd, o);
    Untouched(cs, ds, reqs, resps, fd, o + 1, g);
    OneStep(cs, ds, reqs, resps, fd, g);
    Untouched(cs, ds, reqs, resps, fd, g + 1, c);
    OneStep(cs, ds, reqs, resps, fd, c);
    Untouched(cs, ds, reqs, resps, fd, g + 1, e);
    OneStep(cs, ds, reqs, resps, fd, e);
    Untouched(cs, ds, reqs, resps, fd, e + 1, l);
    OneStep(cs, ds, reqs, resps, fd, l);
  }
}

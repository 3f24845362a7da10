/** How the guest driver lays a request out in memory and scatter-gather lists, and how
    the host handler picks it apart again by position. */
module CryptoCodec {
  import opened Options
  import opened CryptoDevice

  const VIRTIO_CRYPTO_SYSCALL_OPEN: int := 0
  const VIRTIO_CRYPTO_SYSCALL_CLOSE: int := 1
  const VIRTIO_CRYPTO_SYSCALL_IOCTL: int := 2
  const SGS_MAX: nat := 8
  const RING_SIZE: nat := 128

  datatype Cmd = CIOCGSESSION | CIOCFSESSION | CIOCCRYPT | OtherCmd(n: nat)

  /** One kernel buffer. */
  datatype Buf = Word(w: int) | Command(c: Cmd) | Bytes(b: seq<Byte>) | SessionBuf(s: SessionOp) | CryptBuf(o: CryptOp)

  type Addr = nat
  type Memory = map<Addr, Buf>

  /** A descriptor chain: the device reads `out_sg` and writes `in_sg`. */
  datatype Chain = Chain(out_sg: seq<Addr>, in_sg: seq<Addr>) {
    function Length(): nat { |out_sg| + |in_sg| }
  }

  // ----- guest side -----

  /** The contents of the buffers the driver allocates for a request, in order. */
  function Image(req: Request): (img: seq<Buf>)
    ensures 2 <= |img| <= 8
  {
    match req
    case Open => [Word(VIRTIO_CRYPTO_SYSCALL_OPEN), Word(-1)]
    case Close(fd) => [Word(VIRTIO_CRYPTO_SYSCALL_CLOSE), Word(fd)]
    case GetSession(fd, keyBytes, sop) =>
      [Word(VIRTIO_CRYPTO_SYSCALL_IOCTL), Word(fd), Command(CIOCGSESSION), Word(0), Bytes(keyBytes), SessionBuf(sop)]
    case EndSession(fd, ses) =>
      [Word(VIRTIO_CRYPTO_SYSCALL_IOCTL), Word(fd), Command(CIOCFSESSION), Word(0), Word(ses)]
    case Crypt(fd, cop, src, iv) =>
      [Word(VIRTIO_CRYPTO_SYSCALL_IOCTL), Word(fd), Command(CIOCCRYPT), Word(0), CryptBuf(cop), Bytes(src), Bytes(iv), Bytes(ZeroBytes(cop.len))]
    case Unsupported(fd, cmd) =>
      [Word(VIRTIO_CRYPTO_SYSCALL_IOCTL), Word(fd), Command(OtherCmd(cmd)), Word(0)]
  }

  /** The scatter-gather list over those buffers, at addresses `a`. */
  function Encode(req: Request, a: seq<Addr>): Chain
    requires |a| == |Image(req)|
  {
    match req
    case Open => Chain([a[0]], [a[1]])
    case Close(_) => Chain([a[0], a[1]], [])
    case GetSession(_, _, _) => Chain([a[0], a[1], a[2], a[4]], [a[5], a[3]])
    case EndSession(_, _) => Chain([a[0], a[1], a[2], a[4]], [a[3]])
    case Crypt(_, _, _, _) => Chain([a[0], a[1], a[2], a[4], a[5], a[6]], [a[7], a[3]])
    case Unsupported(_, _) => Chain([a[0], a[1], a[2]], [a[3]])
  }

  ghost predicate Distinct(a: seq<Addr>) { forall i, j :: 0 <= i < j < |a| ==> a[i] != a[j] }

  /** The buffers at `a` hold `img`. */
  ghost predicate Holds(m: Memory, a: seq<Addr>, img: seq<Buf>) {
    |a| == |img| && forall j :: 0 <= j < |a| ==> a[j] in m && m[a[j]] == img[j]
  }

  // ----- host side -----

  predicate IsWord(m: Memory, s: seq<Addr>, i: nat) { i < |s| && s[i] in m && m[s[i]].Word? }
  predicate IsBytes(m: Memory, s: seq<Addr>, i: nat) { i < |s| && s[i] in m && m[s[i]].Bytes? }

  /** What the handler does with one popped element. Each ioctl is the atomic device's,
      run on the buffers found at fixed positions of the lists. */
  ghost predicate HandleElement(cs: Suite, d: Dev, m: Memory, e: Chain, d': Dev, m': Memory) {
    && IsWord(m, e.out_sg, 0)
    && var syscall := m[e.out_sg[0]].w;
       if syscall == VIRTIO_CRYPTO_SYSCALL_OPEN then
         && |e.in_sg| > 0
         && exists fd :: DevStep(cs, d, Open, d', Opened(fd)) && m' == m[e.in_sg[0] := Word(fd)]
       else if syscall == VIRTIO_CRYPTO_SYSCALL_CLOSE then
         && IsWord(m, e.out_sg, 1)
         && DevStep(cs, d, Close(m[e.out_sg[1]].w), d', Closed) && m' == m
       else if syscall == VIRTIO_CRYPTO_SYSCALL_IOCTL then
         && IsWord(m, e.out_sg, 1)
         && |e.out_sg| > 2 && e.out_sg[2] in m && m[e.out_sg[2]].Command?
         && HandleIoctl(cs, d, m, e, m[e.out_sg[1]].w, m[e.out_sg[2]].c, d', m')
       else
         d' == d && m' == m
  }

  ghost predicate HandleIoctl(cs: Suite, d: Dev, m: Memory, e: Chain, fd: int, cmd: Cmd, d': Dev, m': Memory) {
    match cmd
    case CIOCGSESSION =>
      && IsBytes(m, e.out_sg, 3)
      && |e.in_sg| > 1 && e.in_sg[0] in m && m[e.in_sg[0]].SessionBuf?
      && exists ret, sop' ::
           // the handler points the key at the buffer it received
           && DevStep(cs, d, GetSession(fd, m[e.out_sg[3]].b, m[e.in_sg[0]].s.(key := e.out_sg[3])), d', SessionGot(ret, sop'))
           && m' == m[e.in_sg[0] := SessionBuf(sop')][e.in_sg[1] := Word(ret)]
    case CIOCFSESSION =>
      && IsWord(m, e.out_sg, 3) && m[e.out_sg[3]].w >= 0
      && |e.in_sg| > 0
      && exists ret ::
           && DevStep(cs, d, EndSession(fd, m[e.out_sg[3]].w), d', Returned(ret))
           && m' == m[e.in_sg[0] := Word(ret)]
    case CIOCCRYPT =>
      && |e.out_sg| > 3 && e.out_sg[3] in m && m[e.out_sg[3]].CryptBuf?
      && IsBytes(m, e.out_sg, 4) && IsBytes(m, e.out_sg, 5) && |e.in_sg| > 1
      && var cop := m[e.out_sg[3]].o.(src := e.out_sg[4], iv := e.out_sg[5], dst := e.in_sg[0]);
         exists ret, dst ::
           && DevStep(cs, d, Crypt(fd, cop, m[e.out_sg[4]].b, m[e.out_sg[5]].b), d', Crypted(ret, dst))
           && m' == m[e.out_sg[3] := CryptBuf(cop)][e.in_sg[0] := Bytes(dst)][e.in_sg[1] := Word(ret)]
    case OtherCmd(_) =>
      d' == d && m' == m
  }

  // ----- what the host is asked -----

  /** The elements the handler can decode: buffers of the right kind at the positions it reads. */
  predicate Decodable(m: Memory, e: Chain) {
    && IsWord(m, e.out_sg, 0)
    && var syscall := m[e.out_sg[0]].w;
       && (syscall == VIRTIO_CRYPTO_SYSCALL_OPEN ==> |e.in_sg| > 0)
       && (syscall == VIRTIO_CRYPTO_SYSCALL_CLOSE ==> IsWord(m, e.out_sg, 1))
       && (syscall == VIRTIO_CRYPTO_SYSCALL_IOCTL ==>
             && IsWord(m, e.out_sg, 1) && |e.out_sg| > 2 && e.out_sg[2] in m && m[e.out_sg[2]].Command?
             && match m[e.out_sg[2]].c
                case CIOCGSESSION =>
                  IsBytes(m, e.out_sg, 3) && |e.in_sg| > 1 && e.in_sg[0] in m && m[e.in_sg[0]].SessionBuf?
                case CIOCFSESSION =>
                  IsWord(m, e.out_sg, 3) && m[e.out_sg[3]].w >= 0 && |e.in_sg| > 0
                case CIOCCRYPT =>
                  |e.out_sg| > 3 && e.out_sg[3] in m && m[e.out_sg[3]].CryptBuf?
                  && IsBytes(m, e.out_sg, 4) && IsBytes(m, e.out_sg, 5) && |e.in_sg| > 1
                case OtherCmd(_) => true)
  }

  /** The one request an element puts to the host's device, if any, with the pointers set to
      the buffers received. */
  ghost function Asked(m: Memory, e: Chain): Option<Request>
    requires Decodable(m, e)
  {
    var syscall := m[e.out_sg[0]].w;
    if syscall == VIRTIO_CRYPTO_SYSCALL_OPEN then Some(Open)
    else if syscall == VIRTIO_CRYPTO_SYSCALL_CLOSE then Some(Close(m[e.out_sg[1]].w))
    else if syscall == VIRTIO_CRYPTO_SYSCALL_IOCTL then
      var fd := m[e.out_sg[1]].w;
      match m[e.out_sg[2]].c
      case CIOCGSESSION => Some(GetSession(fd, m[e.out_sg[3]].b, m[e.in_sg[0]].s.(key := e.out_sg[3])))
      case CIOCFSESSION => Some(EndSession(fd, m[e.out_sg[3]].w))
      case CIOCCRYPT =>
        Some(Crypt(fd, m[e.out_sg[3]].o.(src := e.out_sg[4], iv := e.out_sg[5], dst := e.in_sg[0]), m[e.out_sg[4]].b, m[e.out_sg[5]].b))
      case OtherCmd(_) => None
    else None
  }

  /** The reply buffers of the element hold the answer `resp`. */
  ghost predicate Answered(m: Memory, e: Chain, resp: Response, m': Memory)
    requires Decodable(m, e)
  {
    match resp
    case Opened(fd) => |e.in_sg| > 0 && m' == m[e.in_sg[0] := Word(fd)]
    case Closed => m' == m
    case SessionGot(ret, sop) => |e.in_sg| > 1 && m' == m[e.in_sg[0] := SessionBuf(sop)][e.in_sg[1] := Word(ret)]
    case Returned(ret) => |e.in_sg| > 0 && m' == m[e.in_sg[0] := Word(ret)]
    case Crypted(ret, dst) =>
      && Asked(m, e).Some? && Asked(m, e).value.Crypt? && |e.out_sg| > 3 && |e.in_sg| > 1
      && m' == m[e.out_sg[3] := CryptBuf(Asked(m, e).value.cop)][e.in_sg[0] := Bytes(dst)][e.in_sg[1] := Word(ret)]
  }

  /** The element has been served by putting exactly its own request to the host, once, and
      the reply buffers hold exactly the host's answer. */
  ghost predicate ServedBy(m: Memory, e: Chain, log: seq<HostCall>, m': Memory, log': seq<HostCall>)
    requires Decodable(m, e)
  {
    match Asked(m, e)
    case None => log' == log && m' == m
    case Some(req) =>
      && |log'| == |log| + 1 && log'[..|log|] == log && log'[|log|].req == req && Fits(req, log'[|log|].resp)
      && Answered(m, e, log'[|log|].resp, m')
  }

  /** A request as it is put to the host: its pointers are the buffers at `a`. */
  function Aimed(req: Request, a: seq<Addr>): Request
    requires |a| == |Image(req)|
  {
    match req
    case GetSession(_, _, sop) => req.(sop := sop.(key := a[4]))
    case Crypt(_, cop, _, _) => req.(cop := cop.(src := a[5], iv := a[6], dst := a[7]))
    case _ => req
  }

  /** What a request comes to at the host: nothing for an unsupported command. */
  function Made(req: Request, a: seq<Addr>, resp: Response): seq<HostCall>
    requires |a| == |Image(req)| && Fits(req, resp)
  {
    if req.Unsupported? then [] else [HostCall(Aimed(req, a), Observed(req, a, resp))]
  }

  /** Serving the element of a request asks the host for that very request, up to its
      pointers, and the answer is what the caller will see. */
  lemma ServedIsMade(m: Memory, req: Request, a: seq<Addr>, log: seq<HostCall>, m': Memory, log': seq<HostCall>, resp: Response)
    requires Distinct(a) && Holds(m, a, Image(req)) && Decodable(m, Encode(req, a)) && Fits(req, resp)
    requires ServedBy(m, Encode(req, a), log, m', log') && Holds(m', a, ImageAfter(req, a, resp))
    ensures log' == log + Made(req, a, resp)
  {
    if !req.Unsupported? {
      AskedIsAimed(m, req, a);
      AnswerIsObserved(m, req, a, log'[|log|].resp, m', resp);
    }
  }

  lemma AskedIsAimed(m: Memory, req: Request, a: seq<Addr>)
    requires Holds(m, a, Image(req)) && Decodable(m, Encode(req, a))
    ensures Asked(m, Encode(req, a)) == if req.Unsupported? then None else Some(Aimed(req, a))
  {
    assert forall j :: 0 <= j < |a| ==> m[a[j]] == Image(req)[j];
  }

  lemma AnswerIsObserved(m: Memory, req: Request, a: seq<Addr>, answer: Response, m': Memory, resp: Response)
    requires Distinct(a) && Holds(m, a, Image(req)) && Decodable(m, Encode(req, a)) && Fits(req, resp) && Fits(req, answer)
    requires !req.Unsupported? && Answered(m, Encode(req, a), answer, m') && Holds(m', a, ImageAfter(req, a, resp))
    ensures answer == Observed(req, a, resp)
  {
    assert forall j :: 0 <= j < |a| ==> m'[a[j]] == ImageAfter(req, a, resp)[j];
    match req
    case Open => assert m'[a[1]] == Word(answer.fd);
    case Close(_) =>
    case GetSession(_, _, _) => assert m'[a[5]] == SessionBuf(answer.sop) && m'[a[3]] == Word(answer.ret);
    case EndSession(_, _) => assert m'[a[3]] == Word(answer.ret);
    case Crypt(_, _, _, _) => assert m'[a[7]] == Bytes(answer.dst) && m'[a[3]] == Word(answer.ret);
  }

  // ----- agreement -----

  /** The buffers at `a` once the request has been served with response `resp`. */
  function ImageAfter(req: Request, a: seq<Addr>, resp: Response): (img: seq<Buf>)
    requires |a| == |Image(req)| && Fits(req, resp)
    ensures |img| == |a|
  {
    var img := Image(req);
    match req
    case Open => img[1 := Word(resp.fd)]
    case Close(_) => img
    case GetSession(_, _, sop) => img[5 := SessionBuf(resp.sop.(key := a[4]))][3 := Word(resp.ret)]
    case EndSession(_, _) => img[3 := Word(resp.ret)]
    case Crypt(_, cop, _, _) =>
      img[4 := CryptBuf(cop.(src := a[5], iv := a[6], dst := a[7]))][7 := Bytes(resp.dst)][3 := Word(resp.ret)]
    case Unsupported(_, _) => img
  }

  /** Nothing outside the buffers at `a` has changed. */
  ghost predicate OnlyAt(m: Memory, m': Memory, a: seq<Addr>) {
    m'.Keys == m.Keys && forall x :: x in m && x !in a ==> m'[x] == m[x]
  }

  /** The buffer the driver never frees: the return value of an ioctl. */
  function Leaked(req: Request, a: seq<Addr>): set<Addr>
    requires |a| == |Image(req)|
  {
    if req.Open? || req.Close? then {} else {a[3]}
  }

  /** What the driver reads back and hands to its caller. */
  function ReadBack(req: Request, img: seq<Buf>): Response
    requires |img| == |Image(req)|
    requires req.Open? ==> img[1].Word?
    requires !req.Open? && !req.Close? ==> img[3].Word?
    requires req.GetSession? ==> img[5].SessionBuf?
    requires req.Crypt? ==> img[7].Bytes?
  {
    match req
    case Open => Opened(img[1].w)
    case Close(_) => Closed
    case GetSession(_, _, _) => SessionGot(img[3].w, img[5].s)
    case EndSession(_, _) => Returned(img[3].w)
    case Crypt(_, _, _, _) => Crypted(img[3].w, img[7].b)
    case Unsupported(_, _) => Returned(img[3].w)
  }

  /** What the caller sees of a response: all of it, except that the key pointer of a
      session comes back pointing at the driver's own copy of the key. */
  function Observed(req: Request, a: seq<Addr>, resp: Response): Response
    requires |a| == |Image(req)| && Fits(req, resp)
  {
    if req.GetSession? then resp.(sop := resp.sop.(key := a[4])) else resp
  }

  /** The lists fit the arrays they are built in, and use every buffer exactly once. */
  lemma EncodeFits(req: Request, a: seq<Addr>)
    requires |a| == |Image(req)|
    ensures Encode(req, a).Length() == |a| <= SGS_MAX
    ensures req.Open? || req.Close? ==> Encode(req, a).Length() == 2
    ensures req.Crypt? ==> |Encode(req, a).out_sg| == 6 && |Encode(req, a).in_sg| == 2
    ensures forall x :: x in a <==> x in Encode(req, a).out_sg || x in Encode(req, a).in_sg
  {
  }

  /** The pointers inside a request do not matter to the device, only what they point at. */
  lemma PointersDoNotMatter(cs: Suite, d: Dev, req: Request, key: int, src: int, iv: int, dst: int, d': Dev, resp: Response)
    ensures req.GetSession? && resp.SessionGot? ==>
      (DevStep(cs, d, req.(sop := req.sop.(key := key)), d', resp.(sop := resp.sop.(key := key)))
       <== DevStep(cs, d, req, d', resp))
    ensures req.GetSession? && resp.SessionGot? ==>
      (DevStep(cs, d, req.(sop := req.sop.(key := key)), d', resp)
       ==> DevStep(cs, d, req, d', resp.(sop := resp.sop.(key := req.sop.key))) && resp.sop.key == key)
    ensures req.Crypt? ==>
      (DevStep(cs, d, req.(cop := req.cop.(src := src, iv := iv, dst := dst)), d', resp) <==> DevStep(cs, d, req, d', resp))
  {
  }

  lemma HandleGetSessionIsAtomic(cs: Suite, d: Dev, m: Memory, req: Request, a: seq<Addr>, d': Dev, m': Memory) returns (resp: Response)
    requires Distinct(a) && Holds(m, a, Image(req)) && req.GetSession?
    requires HandleIoctl(cs, d, m, Encode(req, a), req.fd, CIOCGSESSION, d', m')
    ensures DevStep(cs, d, req, d', resp)
    ensures Holds(m', a, ImageAfter(req, a, resp)) && OnlyAt(m, m', a)
  {
    var sop := req.sop;
    var ret, sop' :|
      && DevStep(cs, d, GetSession(req.fd, req.keyBytes, sop.(key := a[4])), d', SessionGot(ret, sop'))
      && m' == m[a[5] := SessionBuf(sop')][a[3] := Word(ret)];
    PointersDoNotMatter(cs, d, req, a[4], 0, 0, 0, d', SessionGot(ret, sop'));
    resp := SessionGot(ret, sop'.(key := sop.key));
  }

  lemma HandleCryptIsAtomic(cs: Suite, d: Dev, m: Memory, req: Request, a: seq<Addr>, d': Dev, m': Memory) returns (resp: Response)
    requires Distinct(a) && Holds(m, a, Image(req)) && req.Crypt?
    requires HandleIoctl(cs, d, m, Encode(req, a), req.fd, CIOCCRYPT, d', m')
    ensures DevStep(cs, d, req, d', resp)
    ensures Holds(m', a, ImageAfter(req, a, resp)) && OnlyAt(m, m', a)
  {
    var cop := req.cop.(src := a[5], iv := a[6], dst := a[7]);
    var ret, dst :|
      && DevStep(cs, d, Crypt(req.fd, cop, req.src, req.iv), d', Crypted(ret, dst))
      && m' == m[a[4] := CryptBuf(cop)][a[7] := Bytes(dst)][a[3] := Word(ret)];
    resp := Crypted(ret, dst);
    PointersDoNotMatter(cs, d, req, 0, a[5], a[6], a[7], d', resp);
  }

  lemma HandleIoctlIsAtomic(cs: Suite, d: Dev, m: Memory, req: Request, a: seq<Addr>, d': Dev, m': Memory) returns (resp: Response)
    requires Distinct(a) && Holds(m, a, Image(req)) && !req.Open? && !req.Close?
    requires HandleIoctl(cs, d, m, Encode(req, a), req.fd, m[a[2]].c, d', m')
    ensures DevStep(cs, d, req, d', resp)
    ensures Holds(m', a, ImageAfter(req, a, resp)) && OnlyAt(m, m', a)
  {
    match req
    case GetSession(_, _, _) => resp := HandleGetSessionIsAtomic(cs, d, m, req, a, d', m');
    case Crypt(_, _, _, _) => resp := HandleCryptIsAtomic(cs, d, m, req, a, d', m');
    case EndSession(_, _) =>
      var ret :| DevStep(cs, d, req, d', Returned(ret)) && m' == m[a[3] := Word(ret)];
      resp := Returned(ret);
    case Unsupported(_, _) =>
      resp := Returned(0);
  }

  /** Positional decoding agrees with encoding: handling the element of a request is one
      atomic step of the device on that very request, the reply lands in the request's
      own buffers, and no other buffer is touched. */
  lemma HandleIsAtomic(cs: Suite, d: Dev, m: Memory, req: Request, a: seq<Addr>, d': Dev, m': Memory) returns (resp: Response)
    requires Distinct(a) && Holds(m, a, Image(req))
    requires HandleElement(cs, d, m, Encode(req, a), d', m')
    ensures DevStep(cs, d, req, d', resp)
    ensures Holds(m', a, ImageAfter(req, a, resp)) && OnlyAt(m, m', a)
  {
    if req.Open? {
      var fd :| DevStep(cs, d, Open, d', Opened(fd)) && m' == m[a[1] := Word(fd)];
      resp := Opened(fd);
    } else if req.Close? {
      resp := Closed;
    } else {
      resp := HandleIoctlIsAtomic(cs, d, m, req, a, d', m');
    }
  }

  lemma AtomicGetSessionIsHandled(cs: Suite, d: Dev, m: Memory, req: Request, a: seq<Addr>, d': Dev, resp: Response) returns (m': Memory)
    requires Distinct(a) && Holds(m, a, Image(req)) && req.GetSession? && DevStep(cs, d, req, d', resp)
    ensures HandleIoctl(cs, d, m, Encode(req, a), req.fd, CIOCGSESSION, d', m')
    ensures Holds(m', a, ImageAfter(req, a, resp)) && OnlyAt(m, m', a)
  {
    PointersDoNotMatter(cs, d, req, a[4], 0, 0, 0, d', resp);
    m' := m[a[5] := SessionBuf(resp.sop.(key := a[4]))][a[3] := Word(resp.ret)];
  }

  lemma AtomicCryptIsHandled(cs: Suite, d: Dev, m: Memory, req: Request, a: seq<Addr>, d': Dev, resp: Response) returns (m': Memory)
    requires Distinct(a) && Holds(m, a, Image(req)) && req.Crypt? && DevStep(cs, d, req, d', resp)
    ensures HandleIoctl(cs, d, m, Encode(req, a), req.fd, CIOCCRYPT, d', m')
    ensures Holds(m', a, ImageAfter(req, a, resp)) && OnlyAt(m, m', a)
  {
    PointersDoNotMatter(cs, d, req, 0, a[5], a[6], a[7], d', resp);
    m' := m[a[4] := CryptBuf(req.cop.(src := a[5], iv := a[6], dst := a[7]))][a[7] := Bytes(resp.dst)][a[3] := Word(resp.ret)];
  }

  lemma AtomicIoctlIsHandled(cs: Suite, d: Dev, m: Memory, req: Request, a: seq<Addr>, d': Dev, resp: Response) returns (m': Memory)
    requires Distinct(a) && Holds(m, a, Image(req)) && !req.Open? && !req.Close?
    requires DevStep(cs, d, req, d', resp)
    ensures HandleIoctl(cs, d, m, Encode(req, a), req.fd, m[a[2]].c, d', m')
    ensures Holds(m', a, ImageAfter(req, a, resp)) && OnlyAt(m, m', a)
  {
    match req
    case GetSession(_, _, _) => m' := AtomicGetSessionIsHandled(cs, d, m, req, a, d', resp);
    case Crypt(_, _, _, _) => m' := AtomicCryptIsHandled(cs, d, m, req, a, d', resp);
    case EndSession(_, _) => m' := m[a[3] := Word(resp.ret)];
    case Unsupported(_, _) => m' := m;
  }

  /** And every atomic step of the device on the request can come about that way. */
  lemma AtomicIsHandled(cs: Suite, d: Dev, m: Memory, req: Request, a: seq<Addr>, d': Dev, resp: Response) returns (m': Memory)
    requires Distinct(a) && Holds(m, a, Image(req))
    requires DevStep(cs, d, req, d', resp)
    ensures HandleElement(cs, d, m, Encode(req, a), d', m')
    ensures Holds(m', a, ImageAfter(req, a, resp)) && OnlyAt(m, m', a)
  {
    if req.Open? {
      m' := m[a[1] := Word(resp.fd)];
    } else if req.Close? {
      m' := m;
    } else {
      m' := AtomicIoctlIsHandled(cs, d, m, req, a, d', resp);
    }
  }

  /** The driver reads back exactly what the device answered, but for the key pointer. */
  lemma ReadBackObserves(req: Request, a: seq<Addr>, resp: Response)
    requires |a| == |Image(req)| && Fits(req, resp)
    requires req.Unsupported? ==> resp == Returned(0)
    ensures ReadBack(req, ImageAfter(req, a, resp)) == Observed(req, a, resp)
  {
  }
}

/** The driver's request building and device list, and the host's element handler, as
    they run: step by step, on memory that is updated in place. */
module CryptoDriver {
  import opened CryptoDevice
  import opened CryptoCodec

  /** `m'` is `m` and new buffers at `a`. */
  ghost predicate Extended(m: Memory, m': Memory, a: seq<Addr>) {
    && m'.Keys == m.Keys + (set x | x in a)
    && (forall x :: x in m ==> x !in a && m'[x] == m[x])
  }

  /** Kernel memory, and the scatter-gather lists built over it. */
  class GuestKernel {
    var mem: Memory
    var brk: nat

    constructor ()
      ensures Valid() && mem == map[]
    {
      mem, brk := map[], 0;
    }

    ghost predicate Valid()
      reads this
    {
      forall x :: x in mem ==> x < brk
    }

    method Kzalloc(b: Buf) returns (x: Addr)
      requires Valid()
      modifies this
      ensures Valid() && x !in old(mem) && mem == old(mem)[x := b]
    {
      var gap: int := *;
      x := if gap > 0 then brk + gap else brk;
      mem := mem[x := b];
      brk := x + 1;
    }

    // Distinct new buffers at `a` with the contents `img`, beside the memory `m0`.
    ghost predicate Built(m0: Memory, a: seq<Addr>, img: seq<Buf>)
      reads this
    {
      Valid() && Distinct(a) && Holds(mem, a, img) && Extended(m0, mem, a)
    }

    // One buffer for each part of a request.
    method Allocate(img: seq<Buf>) returns (a: seq<Addr>)
      requires Valid()
      modifies this
      ensures Built(old(mem), a, img)
    {
      a := [];
      for j := 0 to |img|
        invariant Built(old(mem), a, img[..j])
      {
        var x := Kzalloc(img[j]);
        a := a + [x];
      }
    }

    // crypto_chrdev_open and crypto_chrdev_release, up to the lock.
    method BuildOpenOrClose(req: Request) returns (a: seq<Addr>, sgs: array<Addr>, numOut: nat, numIn: nat)
      requires Valid() && (req.Open? || req.Close?)
      modifies this
      ensures Built(old(mem), a, Image(req))
      ensures fresh(sgs) && sgs.Length == 2 && numOut + numIn == 2
      ensures Chain(sgs[..numOut], sgs[numOut..numOut + numIn]) == Encode(req, a)
    {
      a := Allocate(Image(req));
      sgs := new Addr[2];
      var syscallType, hostFd := a[0], a[1];
      numOut, numIn := 0, 0;
      sgs[numOut] := syscallType;
      numOut := numOut + 1;
      if req.Open? {
        sgs[numOut + numIn] := hostFd;
        numIn := numIn + 1;
      } else {
        sgs[numOut] := hostFd;
        numOut := numOut + 1;
      }
    }

    // crypto_chrdev_ioctl, up to the lock: never more than the eight entries of `sgs`.
    method BuildIoctl(req: Request) returns (a: seq<Addr>, sgs: array<Addr>, numOut: nat, numIn: nat)
      requires Valid() && !req.Open? && !req.Close?
      modifies this
      ensures Built(old(mem), a, Image(req))
      ensures fresh(sgs) && sgs.Length == SGS_MAX && numOut + numIn <= SGS_MAX
      ensures Chain(sgs[..numOut], sgs[numOut..numOut + numIn]) == Encode(req, a)
    {
      a := Allocate(Image(req));
      sgs := new Addr[SGS_MAX];
      numOut, numIn := FillIoctl(req, a, sgs);
    }
  }

  // The scatter-gather list of an ioctl over the buffers `a`. The fourth buffer is for
  // the return value, which comes last.
  method FillIoctl(req: Request, a: seq<Addr>, sgs: array<Addr>) returns (numOut: nat, numIn: nat)
    requires !req.Open? && !req.Close? && |a| == |Image(req)| && sgs.Length == SGS_MAX
    modifies sgs
    ensures numOut + numIn <= SGS_MAX
    ensures Chain(sgs[..numOut], sgs[numOut..numOut + numIn]) == Encode(req, a)
  {
    var syscallType, hostFd, ioctlCmd, hostReturnVal := a[0], a[1], a[2], a[3];
    sgs[0] := syscallType;
    sgs[1] := hostFd;
    sgs[2] := ioctlCmd;
    numOut, numIn := FillCommand(req, a, sgs);
    ghost var before := sgs[..];
    sgs[numOut + numIn] := hostReturnVal;
    numIn := numIn + 1;
    assert sgs[..numOut] == before[..numOut];
    assert sgs[numOut..numOut + numIn] == before[numOut..numOut + numIn - 1] + [hostReturnVal];
  }

  // The entries that depend on the command.
  method FillCommand(req: Request, a: seq<Addr>, sgs: array<Addr>) returns (numOut: nat, numIn: nat)
    requires !req.Open? && !req.Close? && |a| == |Image(req)| && sgs.Length == SGS_MAX && sgs[..3] == a[..3]
    modifies sgs
    ensures numOut + numIn < SGS_MAX
    ensures sgs[..numOut] == Encode(req, a).out_sg
    ensures sgs[numOut..numOut + numIn] + [a[3]] == Encode(req, a).in_sg
  {
    numOut, numIn := 3, 0;
    match req {
      case GetSession(_, _, _) =>
        var sessionKey, sessionOp := a[4], a[5];
        sgs[numOut] := sessionKey;
        numOut := numOut + 1;
        sgs[numOut + numIn] := sessionOp;
        numIn := numIn + 1;
      case EndSession(_, _) =>
        var sesId := a[4];
        sgs[numOut] := sesId;
        numOut := numOut + 1;
      case Crypt(_, _, _, _) =>
        var cryptOp, src, iv, dst := a[4], a[5], a[6], a[7];
        sgs[numOut] := cryptOp;
        numOut := numOut + 1;
        sgs[numOut] := src;
        numOut := numOut + 1;
        sgs[numOut] := iv;
        numOut := numOut + 1;
        sgs[numOut + numIn] := dst;
        numIn := numIn + 1;
      case Unsupported(_, _) =>
    }
  }

  /** Every element the driver builds is decodable. */
  lemma EncodedIsDecodable(m: Memory, req: Request, a: seq<Addr>)
    requires Holds(m, a, Image(req))
    ensures Decodable(m, Encode(req, a))
  {
    assert forall j :: 0 <= j < |a| ==> m[a[j]] == Image(req)[j];
  }

  /** The host side of the queue, with the guest's memory mapped. */
  class HostBackend {
    const suite: Suite
    var mem: Memory
    var dev: Dev
    var avail: seq<Chain>
    var used: seq<Chain>

    // The calls made of the host's device, and how many of them failed.
    ghost var log: seq<HostCall>
    ghost var refused: nat

    // Set when the handler looks for a buffer that is missing or of another kind.
    var strayed: bool

    constructor (cs: Suite)
      ensures suite == cs && mem == map[] && dev == Dev(map[]) && avail == [] && used == [] && !strayed && log == []
    {
      suite, mem, dev, avail, used, strayed := cs, map[], Dev(map[]), [], [], false;
      log, refused := [], 0;
    }

    // Notes a call that has been made.
    ghost method Note(req: Request, resp: Response)
      modifies `log, `refused
      ensures Noted(req, resp)
    {
      log := log + [HostCall(req, resp)];
      refused := refused + if Failed(resp) then 1 else 0;
    }

    twostate predicate Noted(req: Request, resp: Response)
      reads this
    {
      log == old(log) + [HostCall(req, resp)] && refused == old(refused) + if Failed(resp) then 1 else 0
    }

    method HostOpen() returns (fd: int)
      modifies `dev, `log, `refused
      ensures DevStep(suite, old(dev), Open, dev, Opened(fd))
      ensures Noted(Open, Opened(fd))
    {
      fd := *;
      if fd < 0 || fd in dev.fds {
        fd := -1;
        Note(Open, Opened(fd));
        return;
      }
      dev := Dev(dev.fds[fd := map[]]);
      Note(Open, Opened(fd));
    }

    method HostClose(fd: int)
      modifies `dev, `log, `refused
      ensures DevStep(suite, old(dev), Close(fd), dev, Closed)
      ensures Noted(Close(fd), Closed)
    {
      dev := Dev(dev.fds - {fd});
      Note(Close(fd), Closed);
    }

    method IoctlGetSession(fd: int, keyBytes: seq<Byte>, sop: SessionOp) returns (ret: int, sop': SessionOp)
      modifies `dev, `log, `refused
      ensures DevStep(suite, old(dev), GetSession(fd, keyBytes, sop), dev, SessionGot(ret, sop'))
      ensures Noted(GetSession(fd, keyBytes, sop), SessionGot(ret, sop'))
    {
      var ses: nat := *;
      if fd !in dev.fds || ses in dev.fds[fd] {
        Note(GetSession(fd, keyBytes, sop), SessionGot(-1, sop));
        return -1, sop;
      }
      dev := AddSession(dev, fd, ses, Session(sop.cipher, keyBytes));
      Note(GetSession(fd, keyBytes, sop), SessionGot(0, sop.(ses := ses)));
      return 0, sop.(ses := ses);
    }

    method IoctlEndSession(fd: int, ses: nat) returns (ret: int)
      modifies `dev, `log, `refused
      ensures DevStep(suite, old(dev), EndSession(fd, ses), dev, Returned(ret))
      ensures Noted(EndSession(fd, ses), Returned(ret))
    {
      if fd !in dev.fds || ses !in dev.fds[fd] {
        Note(EndSession(fd, ses), Returned(-1));
        return -1;
      }
      dev := DropSession(dev, fd, ses);
      Note(EndSession(fd, ses), Returned(0));
      return 0;
    }

    method IoctlCrypt(fd: int, cop: CryptOp, src: seq<Byte>, iv: seq<Byte>) returns (ret: int, dst: seq<Byte>)
      modifies `log, `refused
      ensures DevStep(suite, dev, Crypt(fd, cop, src, iv), dev, Crypted(ret, dst))
      ensures Noted(Crypt(fd, cop, src, iv), Crypted(ret, dst))
    {
      var fail: bool := *;
      if fail || fd !in dev.fds || cop.ses !in dev.fds[fd] {
        ret, dst := -1, ZeroBytes(cop.len);
      } else {
        ret, dst := 0, suite.run(dev.fds[fd][cop.ses], cop.op, iv, src);
      }
      Note(Crypt(fd, cop, src, iv), Crypted(ret, dst));
    }

    // Pops one element, if there is one, serves it and hands it back. An element of another
    // form than the driver builds sets `strayed`, and the model stops there.
    method VqHandleOutput()
      modifies `mem, `dev, `avail, `used, `strayed, `log, `refused
      ensures strayed == (old(strayed) || (old(avail) != [] && !Decodable(old(mem), old(avail)[0])))
      ensures old(avail) == [] ==> mem == old(mem) && dev == old(dev) && avail == [] && used == old(used) && log == old(log)
      ensures old(avail) != [] && Decodable(old(mem), old(avail)[0]) ==>
        && HandleElement(suite, old(dev), old(mem), old(avail)[0], dev, mem)
        && ServedBy(old(mem), old(avail)[0], old(log), mem, log)
        && avail == old(avail)[1..] && used == old(used) + [old(avail)[0]]
    {
      if avail == [] {
        return;
      }
      var elem := avail[0];
      avail := avail[1..];
      if !Decodable(mem, elem) {
        strayed := true;
        return;
      }
      var syscallType := mem[elem.out_sg[0]].w;
      if syscallType == VIRTIO_CRYPTO_SYSCALL_OPEN {
        var fd := HostOpen();
        mem := mem[elem.in_sg[0] := Word(fd)];
      } else if syscallType == VIRTIO_CRYPTO_SYSCALL_CLOSE {
        HostClose(mem[elem.out_sg[1]].w);
      } else if syscallType == VIRTIO_CRYPTO_SYSCALL_IOCTL {
        HandleIoctlElement(elem);
      }
      used := used + [elem];
    }

    method HandleIoctlElement(elem: Chain)
      requires Decodable(mem, elem) && mem[elem.out_sg[0]].w == VIRTIO_CRYPTO_SYSCALL_IOCTL
      modifies `mem, `dev, `log, `refused
      ensures ServedBy(old(mem), elem, old(log), mem, log)
      ensures HandleIoctl(suite, old(dev), old(mem), elem, old(mem)[elem.out_sg[1]].w, old(mem)[elem.out_sg[2]].c, dev, mem)
    {
      var hostFd := mem[elem.out_sg[1]].w;
      match mem[elem.out_sg[2]].c {
        case CIOCGSESSION =>
          var sessionKey, sessionOp := elem.out_sg[3], elem.in_sg[0];
          var ret, sop := IoctlGetSession(hostFd, mem[sessionKey].b, mem[sessionOp].s.(key := sessionKey));
          mem := mem[sessionOp := SessionBuf(sop)];
          mem := mem[elem.in_sg[1] := Word(ret)];
        case CIOCFSESSION =>
          var ret := IoctlEndSession(hostFd, mem[elem.out_sg[3]].w);
          mem := mem[elem.in_sg[0] := Word(ret)];
        case CIOCCRYPT =>
          var cryptOp, src, iv, dst := elem.out_sg[3], elem.out_sg[4], elem.out_sg[5], elem.in_sg[0];
          var cop := mem[cryptOp].o.(src := src, iv := iv, dst := dst);
          var ret, out := IoctlCrypt(hostFd, cop, mem[src].b, mem[iv].b);
          mem := mem[cryptOp := CryptBuf(cop)];
          mem := mem[dst := Bytes(out)];
          mem := mem[elem.in_sg[1] := Word(ret)];
        case OtherCmd(_) =>
      }
    }
  }

  // ----- the list of crypto devices -----

  /** A probed device: its virtio device and its minor number. */
  datatype GuestDevice = GuestDevice(vdev: int, minor: nat)

  /** Global driver data. `next_minor` is an unsigned 32-bit counter. */
  class CryptoDriverData {
    var devs: seq<GuestDevice>
    var nextMinor: nat
    ghost var probes: nat

    // Until the counter has gone round no minor number is handed out twice.
    ghost predicate Valid()
      reads this
    {
      nextMinor == probes % 0x1_0000_0000 && (probes <= 0x1_0000_0000 ==> Distinguished())
    }

    ghost predicate Distinguished()
      reads this
    {
      && (forall i :: 0 <= i < |devs| ==> devs[i].minor < probes)
      && (forall i, j :: 0 <= i < j < |devs| ==> devs[i].minor != devs[j].minor)
    }

    constructor ()
      ensures Valid() && devs == [] && probes == 0
    {
      devs, nextMinor, probes := [], 0, 0;
    }

    method Probe(vdev: int)
      requires Valid()
      modifies this
      ensures Valid() && devs == old(devs) + [GuestDevice(vdev, old(nextMinor))] && probes == old(probes) + 1
    {
      devs := devs + [GuestDevice(vdev, nextMinor)];
      nextMinor := (nextMinor + 1) % 0x1_0000_0000;
      probes := probes + 1;
    }

    method Remove(i: nat)
      requires Valid() && i < |devs|
      modifies `devs
      ensures Valid() && devs == old(devs)[..i] + old(devs)[i + 1..]
    {
      devs := devs[..i] + devs[i + 1..];
    }

    // The first device with the given minor number; while minors are distinct, the only one.
    method GetByMinor(minor: nat) returns (found: bool, crdev: GuestDevice)
      requires Valid()
      ensures found <==> exists i :: 0 <= i < |devs| && devs[i].minor == minor
      ensures found ==> exists i :: 0 <= i < |devs| && devs[i] == crdev && crdev.minor == minor && forall j :: 0 <= j < i ==> devs[j].minor != minor
      ensures found && probes <= 0x1_0000_0000 ==> forall d :: d in devs && d.minor == minor ==> d == crdev
    {
      crdev := GuestDevice(0, 0);
      var i := 0;
      while i < |devs|
        invariant i <= |devs|
        invariant forall j :: 0 <= j < i ==> devs[j].minor != minor
      {
        if devs[i].minor == minor {
          return true, devs[i];
        }
        i := i + 1;
      }
      return false, crdev;
    }
  }
}

/** The chat programs' reading, writing and ciphering of buffers, as they run. */
module ChatIO {
  import opened CryptoDevice
  import opened CryptoDriver
  import opened ChatFraming

  /** How a call ends: normally, finding the connection ended, by ending the process, or
      running beyond a buffer, where the model stops. */
  datatype Outcome = Done | Gone | Died | Overran

  // `b` with `x` over the bytes from `at`.
  ghost function Splice(b: seq<Byte>, at: nat, x: seq<Byte>): seq<Byte>
    requires at + |x| <= |b|
  {
    b[..at] + x + b[at + |x|..]
  }

  lemma SpliceMore(b: seq<Byte>, at: nat, x: seq<Byte>, done: nat, ret: nat)
    requires done + ret <= |x| && at + done + ret <= |b|
    ensures Splice(Splice(b, at, x[..done]), at + done, x[done..][..ret]) == Splice(b, at, x[..done + ret])
  {
    assert x[..done] + x[done..][..ret] == x[..done + ret];
  }

  /** One end of a connection: what the peer sends before the connection ends, less what
      has been read, and what has been written. */
  class Connection {
    var inbox: seq<Byte>
    var outbox: seq<Byte>

    // How many reads and writes have failed.
    ghost var errors: nat

    method Write(buf: array<Byte>, at: nat, cnt: nat) returns (ret: int)
      requires at + cnt <= buf.Length && cnt > 0
      modifies `outbox, `errors
      ensures (ret == -1 || 1 <= ret <= cnt) && errors == old(errors) + if ret < 0 then 1 else 0
      ensures outbox == old(outbox) + if ret < 0 then [] else buf[at..at + ret]
    {
      ret := *;
      if ret < 1 || ret > cnt {
        errors := errors + 1;
        return -1;
      }
      outbox := outbox + buf[at..at + ret];
    }

    // Zero is the end of the connection.
    method Read(buf: array<Byte>, at: nat, cnt: nat) returns (ret: int)
      requires at + cnt <= buf.Length && cnt > 0
      modifies `inbox, `errors, buf
      ensures errors == old(errors) + if ret < 0 then 1 else 0
      ensures -1 <= ret <= cnt && ret <= |old(inbox)| && (ret == 0 ==> old(inbox) == [])
      ensures inbox == if ret < 0 then old(inbox) else old(inbox)[ret..]
      ensures buf[..] == if ret < 0 then old(buf[..]) else Splice(old(buf[..]), at, old(inbox)[..ret])
    {
      ret := *;
      if inbox == [] {
        ret := 0;
      } else if ret < 1 || ret > cnt || ret > |inbox| {
        errors := errors + 1;
        return -1;
      }
      for i := 0 to ret
        modifies buf
        invariant forall j :: 0 <= j < buf.Length ==> buf[j] == if at <= j < at + i then inbox[j - at] else old(buf[j])
      {
        buf[at + i] := inbox[i];
      }
      inbox := inbox[ret..];
    }
  }

  // Writes everything, however short the single writes; on an error a part of it.
  method InsistWrite(conn: Connection, buf: array<Byte>, at: nat, cnt: nat) returns (ret: int)
    requires at + cnt <= buf.Length
    modifies conn`outbox, conn`errors
    ensures (ret == cnt || ret == -1) && conn.errors == old(conn.errors) + if ret < 0 then 1 else 0
    ensures ret == cnt ==> conn.outbox == old(conn.outbox) + buf[at..at + cnt]
    ensures ret == -1 ==> old(conn.outbox) <= conn.outbox < old(conn.outbox) + buf[at..at + cnt]
  {
    var done := 0;
    while done < cnt
      invariant done <= cnt && conn.errors == old(conn.errors)
      invariant conn.outbox == old(conn.outbox) + buf[at..at + cnt][..done]
    {
      ret := conn.Write(buf, at + done, cnt - done);
      if ret < 0 {
        assert conn.outbox == old(conn.outbox) + buf[at..at + cnt][..done];
        return ret;
      }
      assert buf[at..at + cnt][..done] + buf[at + done..at + done + ret] == buf[at..at + cnt][..done + ret];
      done := done + ret;
    }
    assert buf[at..at + cnt][..done] == buf[at..at + cnt];
    return cnt;
  }

  // Reads exactly `cnt` bytes, however short the single reads, or finds the connection
  // ended before that. Asked for no bytes at all it returns zero too.
  method InsistRead(conn: Connection, buf: array<Byte>, at: nat, cnt: nat) returns (ret: int)
    requires at + cnt <= buf.Length
    modifies conn`inbox, conn`errors, buf
    ensures (ret == cnt || ret == 0 || ret == -1) && conn.errors == old(conn.errors) + if ret < 0 then 1 else 0
    ensures ret == cnt ==> cnt <= |old(conn.inbox)| && conn.inbox == old(conn.inbox)[cnt..]
    ensures ret == cnt ==> buf[..] == Splice(old(buf[..]), at, old(conn.inbox)[..cnt])
    ensures ret == 0 && cnt > 0 ==> |old(conn.inbox)| < cnt && conn.inbox == []
  {
    ghost var was, all := buf[..], conn.inbox;
    var done := 0;
    while done < cnt
      invariant done <= cnt && done <= |all| && conn.inbox == all[done..] && conn.errors == old(conn.errors)
      invariant buf[..] == Splice(was, at, all[..done])
    {
      ret := ReadMore(conn, buf, at, cnt, done, was, all);
      if ret <= 0 {
        return;
      }
      done := done + ret;
    }
    return cnt;
  }

  // A read that goes on where the earlier ones stopped.
  method ReadMore(conn: Connection, buf: array<Byte>, at: nat, cnt: nat, done: nat, ghost was: seq<Byte>, ghost all: seq<Byte>)
      returns (ret: int)
    requires done < cnt && done <= |all| && at + cnt <= buf.Length == |was|
    requires conn.inbox == all[done..] && buf[..] == Splice(was, at, all[..done])
    modifies conn`inbox, conn`errors, buf
    ensures -1 <= ret <= cnt - done && done + ret <= |all| && conn.errors == old(conn.errors) + if ret < 0 then 1 else 0
    ensures ret == 0 ==> |all| == done && conn.inbox == []
    ensures ret > 0 ==> conn.inbox == all[done + ret..] && buf[..] == Splice(was, at, all[..done + ret])
  {
    ret := conn.Read(buf, at + done, cnt - done);
    if ret > 0 {
      SpliceMore(was, at, all, done, ret);
    }
  }

  // ----- ciphering a buffer through /dev/crypto -----

  const CRYPTO_AES_CBC: nat := 11
  const COP_ENCRYPT: nat := 0
  const COP_DECRYPT: nat := 1
  const BLOCK_SIZE: nat := 16
  const KEY_SIZE: nat := 16

  method KeyAndIv() returns (key: array<Byte>, iv: array<Byte>)
    ensures key[..] == ChatKey() && iv[..] == ChatIv()
  {
    key, iv := new Byte[KEY_SIZE], new Byte[BLOCK_SIZE];
    for i := 0 to BLOCK_SIZE
      invariant forall j :: 0 <= j < i ==> iv[j] == 49 && key[j] == 48 + j
    {
      iv[i] := 49;
      key[i] := 48 + i;
    }
  }

  // The session and the single operation of encrypt and decrypt. The device is left as it
  // was found.
  method CipherOnce(crypto: HostBackend, op: nat, input: array<Byte>) returns (ok: bool, output: seq<Byte>)
    requires op == COP_ENCRYPT || op == COP_DECRYPT
    modifies crypto`dev, crypto`log, crypto`refused
    ensures crypto.refused == old(crypto.refused) + if ok then 0 else 1
    ensures ok ==> crypto.dev == old(crypto.dev)
    ensures ok ==> output == crypto.suite.run(Session(CRYPTO_AES_CBC, ChatKey()), op, ChatIv(), input[..])
  {
    var key, iv := KeyAndIv();
    var cfd := crypto.HostOpen();
    if cfd < 0 {
      return false, [];
    }
    ghost var d1 := crypto.dev;
    var sop := SessionOp(CRYPTO_AES_CBC, 0, KEY_SIZE, 0, 0, 0, 0);
    var ret, sess := crypto.IoctlGetSession(cfd, key[..], sop);
    if ret != 0 {
      return false, [];
    }
    ghost var d2 := crypto.dev;
    var cop := CryptOp(sess.ses, op, 0, input.Length, 0, 0, 0, 0);
    ret, output := crypto.IoctlCrypt(cfd, cop, input[..], iv[..]);
    if ret != 0 {
      return false, [];
    }
    var freed := crypto.IoctlEndSession(cfd, sess.ses);
    if freed != 0 {
      return false, [];
    }
    ghost var d4 := crypto.dev;
    crypto.HostClose(cfd);
    FiveCalls(crypto.suite, old(crypto.dev), d1, d2, d4, crypto.dev, cfd, key[..], sop, sess, cop, input[..], iv[..], output);
    ok := true;
  }

  lemma FiveCalls(cs: Suite, d0: Dev, d1: Dev, d2: Dev, d4: Dev, d5: Dev, fd: int, key: seq<Byte>, sop: SessionOp, sess: SessionOp,
                  cop: CryptOp, src: seq<Byte>, iv: seq<Byte>, dst: seq<Byte>)
    requires fd >= 0 && cop.ses == sess.ses
    requires DevStep(cs, d0, Open, d1, Opened(fd)) && DevStep(cs, d1, GetSession(fd, key, sop), d2, SessionGot(0, sess))
    requires DevStep(cs, d2, Crypt(fd, cop, src, iv), d2, Crypted(0, dst))
    requires DevStep(cs, d2, EndSession(fd, sess.ses), d4, Returned(0)) && DevStep(cs, d4, Close(fd), d5, Closed)
    ensures d5 == d0 && dst == cs.run(Session(sop.cipher, key), cop.op, iv, src)
  {
    CipherCallLeavesNoTrace(cs, [d0, d1, d2, d2, d4, d5],
      [Open, GetSession(fd, key, sop), Crypt(fd, cop, src, iv), EndSession(fd, sess.ses), Close(fd)],
      [Opened(fd), SessionGot(0, sess), Crypted(0, dst), Returned(0), Closed]);
  }

  method Copy(src: seq<Byte>, dst: array<Byte>)
    requires |src| <= dst.Length
    modifies dst
    ensures dst[..] == src + old(dst[|src|..])
  {
    for i := 0 to |src|
      invariant forall j :: 0 <= j < dst.Length ==> dst[j] == if j < i then src[j] else old(dst[j])
    {
      dst[i] := src[i];
    }
  }

  method Padded(text: seq<Byte>) returns (input: array<Byte>)
    requires |text| <= DATA_SIZE
    ensures fresh(input) && input[..] == Pad(text)
  {
    input := new Byte[DATA_SIZE];
    Copy(text, input);
    assert forall j :: 0 <= j < |text| ==> input[j] == input[..][j] == text[j];
    for i := |text| to DATA_SIZE
      invariant forall j :: 0 <= j < i ==> input[j] == if j < |text| then text[j] else CHAR_ZERO
    {
      input[i] := CHAR_ZERO;
    }
  }

  // Enciphers the first `n` bytes of `buffer`, filled up to 256, over its first 256 bytes;
  // more than 256 run beyond the input that goes to the device.
  method Encrypt(crypto: HostBackend, buffer: array<Byte>, n: nat) returns (r: Outcome)
    requires Invertible(crypto.suite) && DATA_SIZE <= buffer.Length && n <= buffer.Length
    modifies crypto`dev, crypto`log, crypto`refused, buffer
    ensures r != Gone && (r == Overran <==> n > DATA_SIZE)
    ensures crypto.refused == old(crypto.refused) + if r == Died then 1 else 0
    ensures r != Died ==> crypto.dev == old(crypto.dev)
    ensures r == Done ==> buffer[..] == Encipher(crypto.suite, Pad(old(buffer[..n]))) + old(buffer[DATA_SIZE..])
  {
    if n > DATA_SIZE {
      return Overran;
    }
    var input := Padded(buffer[..n]);
    var ok, output := CipherOnce(crypto, COP_ENCRYPT, input);
    if !ok {
      return Died;
    }
    assert output == Encipher(crypto.suite, Pad(buffer[..n]));
    Copy(output, buffer);
    return Done;
  }

  method Decrypt(crypto: HostBackend, buffer: array<Byte>) returns (ok: bool)
    requires Invertible(crypto.suite) && DATA_SIZE <= buffer.Length
    modifies crypto`dev, crypto`log, crypto`refused, buffer
    ensures crypto.refused == old(crypto.refused) + if ok then 0 else 1
    ensures ok ==> crypto.dev == old(crypto.dev)
    ensures ok ==> buffer[..] == Decipher(crypto.suite, old(buffer[..DATA_SIZE])) + old(buffer[DATA_SIZE..])
  {
    var input := new Byte[DATA_SIZE];
    Copy(buffer[..DATA_SIZE], input);
    assert input[..] == buffer[..DATA_SIZE];
    var output;
    ok, output := CipherOnce(crypto, COP_DECRYPT, input);
    if ok {
      assert output == Decipher(crypto.suite, buffer[..DATA_SIZE]);
      Copy(output, buffer);
    }
  }

  // ----- sending -----

  const NEWLINE: Byte := 10

  // What a line typed at the prompt becomes.
  function Spoken(prompt: seq<Byte>, line: seq<Byte>): Message { prompt + line + [NEWLINE] }

  // The line does not fit the buffers.
  predicate TooLong(encrypted: bool, prompt: seq<Byte>, line: seq<Byte>) {
    |Frame(Spoken(prompt, line))| > if encrypted then DATA_SIZE else BUFF_SIZE
  }

  // What goes out for a line that fits: nothing for an empty one, otherwise one frame or
  // one enciphered block.
  ghost function Sent(encrypted: bool, cs: Suite, prompt: seq<Byte>, line: seq<Byte>): seq<Byte>
    requires !TooLong(encrypted, prompt, line)
  {
    if line == [] then []
    else if encrypted then Encipher(cs, Pad(Frame(Spoken(prompt, line))))
    else Frame(Spoken(prompt, line))
  }

  // Writes a typed line, or runs beyond a buffer exactly when it does not fit.
  method SendLine(encrypted: bool, crypto: HostBackend, conn: Connection, prompt: seq<Byte>, line: seq<Byte>)
      returns (r: Outcome)
    requires Invertible(crypto.suite)
    modifies crypto`dev, crypto`log, crypto`refused, conn`outbox, conn`errors
    ensures r != Gone && (r == Overran <==> line != [] && TooLong(encrypted, prompt, line))
    ensures crypto.refused + conn.errors == old(crypto.refused + conn.errors) + if r == Died then 1 else 0
    ensures r != Died ==> crypto.dev == old(crypto.dev)
    ensures r == Overran || line == [] ==> conn.outbox == old(conn.outbox)
    ensures line != [] && !TooLong(encrypted, prompt, line) ==>
      var sent := Sent(encrypted, crypto.suite, prompt, line);
      if r == Done then conn.outbox == old(conn.outbox) + sent
      else old(conn.outbox) <= conn.outbox < old(conn.outbox) + sent
  {
    if line == [] {
      return Done;
    }
    var m := Spoken(prompt, line);
    var n := |Frame(m)|;
    if n > BUFF_SIZE {
      return Overran;
    }
    var fullMessage := new Byte[BUFF_SIZE];
    Copy(Be32(|m|) + m, fullMessage);
    assert fullMessage[..n] == Frame(m);
    if encrypted {
      r := Encrypt(crypto, fullMessage, n);
      if r != Done {
        if r == Died {
          BlockNotEmpty(crypto.suite, m);
        }
        return;
      }
      n := DATA_SIZE;
    }
    var ret := InsistWrite(conn, fullMessage, 0, n);
    r := if ret == n then Done else Died;
  }

  lemma BlockNotEmpty(cs: Suite, m: Message)
    requires Invertible(cs) && Fitting(m)
    ensures |Encipher(cs, Pad(Frame(m)))| == DATA_SIZE
  {
  }

  // ----- receiving -----

  // More bytes of a message arrive than a buffer of `len` holds.
  predicate Overlong(s: seq<Byte>, len: nat) { |s| > LENGTH_BYTES + len && Get32(s) > len }

  // Receives one plaintext frame into `buf` and prints it, or runs beyond the buffer
  // exactly when more of a message arrives than it holds.
  method GetAndPrintPlain(conn: Connection, console: Connection, buf: array<Byte>) returns (r: Outcome)
    requires conn != console && buf.Length > 0
    modifies conn`inbox, conn`errors, console`outbox, console`errors, buf
    ensures conn.errors + console.errors == old(conn.errors + console.errors) + if r == Died then 1 else 0
    ensures r == Overran || r == Died || !Overlong(old(conn.inbox), buf.Length)
    ensures r == Overran ==> Overlong(old(conn.inbox), buf.Length) && console.outbox == old(console.outbox)
    ensures match Receive(old(conn.inbox))
      case None => r != Done && console.outbox == old(console.outbox)
      case Some((m, rest)) =>
        && r != Gone
        && (r == Done ==> conn.inbox == rest && console.outbox == old(console.outbox) + m)
        && (r == Died ==> old(console.outbox) <= console.outbox < old(console.outbox) + m)
  {
    var word := new Byte[LENGTH_BYTES];
    var n := InsistRead(conn, word, 0, LENGTH_BYTES);
    if n < 0 {
      return Died;
    }
    if n <= 0 {
      return Gone;
    }
    var size := Get32(word[..]);
    assert word[..] == old(conn.inbox)[..LENGTH_BYTES];
    n := InsistRead(conn, buf, 0, if size <= buf.Length then size else buf.Length);
    if n < 0 {
      return Died;
    }
    if n <= 0 {
      return Gone;
    }
    if size > buf.Length {
      r := ReadBeyond(conn);
      return;
    }
    assert buf[..size] == old(conn.inbox)[LENGTH_BYTES..LENGTH_BYTES + size];
    var ret := InsistWrite(console, buf, 0, size);
    r := if ret == size then Done else Died;
  }

  // A read into a buffer that is full.
  method ReadBeyond(conn: Connection) returns (r: Outcome)
    modifies conn`errors
    ensures conn.errors == old(conn.errors) + if r == Died then 1 else 0
    ensures r == Died || r == if conn.inbox == [] then Gone else Overran
  {
    var fail: bool := *;
    if fail {
      conn.errors := conn.errors + 1;
    }
    r := if fail then Died else if conn.inbox == [] then Gone else Overran;
  }

  // Receives one enciphered block into `buf` and deciphers it there.
  method TakeBlock(crypto: HostBackend, conn: Connection, buf: array<Byte>) returns (r: Outcome, size: nat)
    requires Invertible(crypto.suite) && buf.Length >= DATA_SIZE
    modifies crypto`dev, crypto`log, crypto`refused, conn`inbox, conn`errors, buf
    ensures crypto.refused >= old(crypto.refused) && conn.errors >= old(conn.errors)
    ensures crypto.refused + conn.errors == old(crypto.refused + conn.errors) + if r == Died then 1 else 0
    ensures r == Done || r == Gone || r == Overran ==> crypto.dev == old(crypto.dev)
    ensures var s := old(conn.inbox);
      if |s| < DATA_SIZE then r == Gone || r == Died
      else
        && r != Gone
        && match Unpack(Decipher(crypto.suite, s[..DATA_SIZE]))
           case Text(m) =>
             && r != Overran
             && (r == Done ==>
                   && conn.inbox == s[DATA_SIZE..] && buf[..DATA_SIZE] == Decipher(crypto.suite, s[..DATA_SIZE])
                   && size == |m| && LENGTH_BYTES + size <= DATA_SIZE && buf[LENGTH_BYTES..LENGTH_BYTES + size] == m)
           case Overrun(_) => r != Done
  {
    size := 0;
    var n := InsistRead(conn, buf, 0, DATA_SIZE);
    if n < 0 {
      return Died, size;
    }
    if n <= 0 {
      return Gone, size;
    }
    assert buf[..DATA_SIZE] == old(conn.inbox)[..DATA_SIZE];
    var ok := Decrypt(crypto, buf);
    if !ok {
      return Died, size;
    }
    ghost var p := Decipher(crypto.suite, old(conn.inbox)[..DATA_SIZE]);
    assert buf[..DATA_SIZE] == p;
    size := Get32(buf[..LENGTH_BYTES]);
    assert size == Get32(p);
    if LENGTH_BYTES + size > DATA_SIZE {
      return Overran, size;
    }
    assert buf[LENGTH_BYTES..LENGTH_BYTES + size] == p[LENGTH_BYTES..LENGTH_BYTES + size];
    r := Done;
  }

  // Receives one enciphered block into `buf` and prints what it holds.
  method GetAndPrintEncrypted(crypto: HostBackend, conn: Connection, console: Connection, buf: array<Byte>)
      returns (r: Outcome)
    requires conn != console && Invertible(crypto.suite) && buf.Length >= DATA_SIZE
    modifies crypto`dev, crypto`log, crypto`refused, conn`inbox, conn`errors, console`outbox, console`errors, buf
    ensures crypto.refused + conn.errors + console.errors == old(crypto.refused + conn.errors + console.errors) + if r == Died then 1 else 0
    ensures r == Done || r == Gone ==> crypto.dev == old(crypto.dev)
    ensures BlockPrinted(crypto.suite, old(conn.inbox), conn.inbox, old(console.outbox), console.outbox, r)
  {
    var size;
    r, size := TakeBlock(crypto, conn, buf);
    if r == Done {
      var ret := InsistWrite(console, buf, LENGTH_BYTES, size);
      r := if ret == size then Done else Died;
    }
  }

  /** What receiving a block from the stream `s` comes to: `s'` is left of it, and the
      console goes from `out` to `out'`. */
  ghost predicate BlockPrinted(cs: Suite, s: seq<Byte>, s': seq<Byte>, out: seq<Byte>, out': seq<Byte>, r: Outcome)
    requires Invertible(cs)
  {
    if |s| < DATA_SIZE then (r == Gone || r == Died) && out' == out
    else Printed(Unpack(Decipher(cs, s[..DATA_SIZE])), s[DATA_SIZE..], s', out, out', r)
  }

  ghost predicate Printed(d: Decoded, tail: seq<Byte>, s': seq<Byte>, out: seq<Byte>, out': seq<Byte>, r: Outcome) {
    && r != Gone
    && match d
       case Text(m) => r != Overran && (r == Done ==> s' == tail && out' == out + m)
       case Overrun(_) => r != Done && out' == out
  }

  function Joined(ms: seq<Message>): seq<Byte> { if ms == [] then [] else ms[0] + Joined(ms[1..]) }

  // Somewhere in the stream more of a message arrives than a buffer of `len` holds.
  predicate RunsOver(s: seq<Byte>, len: nat)
    decreases |s|
  {
    Overlong(s, len) || match Receive(s) case None => false case Some((_, rest)) => RunsOver(rest, len)
  }

  // The client's receiving loop, on any stream: everything that arrives whole is printed,
  // up to a message that runs beyond the buffer.
  method ReceiveUntilGone(conn: Connection, console: Connection) returns (r: Outcome)
    requires conn != console
    modifies conn`inbox, conn`errors, console`outbox, console`errors
    ensures r != Done && (r != Died ==> (r == Overran <==> RunsOver(old(conn.inbox), BUFF_SIZE)))
    ensures conn.errors + console.errors == old(conn.errors + console.errors) + if r == Died then 1 else 0
    ensures r == Gone ==> console.outbox == old(console.outbox) + Joined(ReceiveAll(old(conn.inbox)))
    ensures old(console.outbox) <= console.outbox <= old(console.outbox) + Joined(ReceiveAll(old(conn.inbox)))
  {
    ghost var all := conn.inbox;
    var buf := new Byte[BUFF_SIZE];
    while true
      invariant old(console.outbox) <= console.outbox
      invariant console.outbox + Joined(ReceiveAll(conn.inbox)) == old(console.outbox) + Joined(ReceiveAll(all))
      invariant RunsOver(conn.inbox, BUFF_SIZE) <==> RunsOver(all, BUFF_SIZE)
      invariant conn.errors + console.errors == old(conn.errors + console.errors)
      decreases |conn.inbox|
    {
      ghost var s := conn.inbox;
      ReceivedFirst(s);
      r := GetAndPrintPlain(conn, console, buf);
      if r != Done {
        return;
      }
    }
  }

  lemma ReceivedFirst(s: seq<Byte>)
    ensures Receive(s).Some? ==> var (m, rest) := Receive(s).value; Joined(ReceiveAll(s)) == m + Joined(ReceiveAll(rest))
  {
    if Receive(s).Some? {
      var (m, rest) := Receive(s).value;
      assert ([m] + ReceiveAll(rest))[1..] == ReceiveAll(rest);
    }
  }

  // A message the programs can send and hold: not empty, and within the buffer.
  predicate Chatty(m: Message) { 0 < |m| <= BUFF_SIZE }

  // Of a stream of messages cut anywhere, exactly those that arrived whole.
  lemma {:induction false} MessagesPrinted(ms: seq<Message>, cut: nat)
    requires (forall m :: m in ms ==> Chatty(m)) && cut <= |Frames(ms)|
    ensures ReceiveAll(Frames(ms)[..cut]) == ms[..Whole(ms, cut)] && !RunsOver(Frames(ms)[..cut], BUFF_SIZE)
  {
    PrefixSafety(ms, cut);
    if ms != [] {
      assert ms[0] in ms;
      if cut >= LENGTH_BYTES {
        Be32RoundTrip(|ms[0]|, (ms[0] + Frames(ms[1..]))[..cut - LENGTH_BYTES]);
        assert Frames(ms)[..cut] == Be32(|ms[0]|) + (ms[0] + Frames(ms[1..]))[..cut - LENGTH_BYTES];
      }
      if cut >= |Frame(ms[0])| {
        var end := cut - |Frame(ms[0])|;
        ReceiveFrame(ms[0], Frames(ms[1..])[..end]);
        assert Frames(ms)[..cut] == Frame(ms[0]) + Frames(ms[1..])[..end];
        MessagesPrinted(ms[1..], end);
      }
    }
  }

  function JoinedTexts(ds: seq<Decoded>): seq<Byte> {
    if ds == [] then []
    else (match ds[0] case Text(m) => m case Overrun(_) => []) + JoinedTexts(ds[1..])
  }

  // The same loop in encrypted mode, on any stream: everything it decodes is printed, up to
  // a length that runs beyond its block.
  method ReceiveBlocksUntilGone(crypto: HostBackend, conn: Connection, console: Connection) returns (r: Outcome)
    requires conn != console && Invertible(crypto.suite)
    modifies crypto`dev, crypto`log, crypto`refused, conn`inbox, conn`errors, console`outbox, console`errors
    ensures r != Done
    ensures crypto.refused + conn.errors + console.errors == old(crypto.refused + conn.errors + console.errors) + if r == Died then 1 else 0
    ensures r == Gone ==> crypto.dev == old(crypto.dev)
    ensures r == Gone ==> console.outbox == old(console.outbox) + JoinedTexts(ReceiveBlocks(crypto.suite, old(conn.inbox)))
    ensures (forall d :: d in ReceiveBlocks(crypto.suite, old(conn.inbox)) ==> d.Text?) ==> r != Overran
  {
    ghost var all := ReceiveBlocks(crypto.suite, conn.inbox);
    var buf := new Byte[BUFF_SIZE];
    while true
      invariant crypto.dev == old(crypto.dev)
      invariant crypto.refused + conn.errors + console.errors == old(crypto.refused + conn.errors + console.errors)
      invariant console.outbox + JoinedTexts(ReceiveBlocks(crypto.suite, conn.inbox)) == old(console.outbox) + JoinedTexts(all)
      invariant forall d :: d in ReceiveBlocks(crypto.suite, conn.inbox) ==> d in all
      decreases |conn.inbox|
    {
      ghost var s, out := conn.inbox, console.outbox;
      r := GetAndPrintEncrypted(crypto, conn, console, buf);
      PrintedStep(crypto.suite, s, conn.inbox, out, console.outbox, r);
      if r != Done {
        return;
      }
    }
  }

  lemma {:induction false} PrintedStep(cs: Suite, s: seq<Byte>, s': seq<Byte>, out: seq<Byte>, out': seq<Byte>, r: Outcome)
    requires Invertible(cs) && BlockPrinted(cs, s, s', out, out', r)
    ensures var ds := ReceiveBlocks(cs, s);
      && (r == Gone ==> ds == [] && out' == out)
      && (r == Overran ==> ds != [] && ds[0].Overrun?)
      && (r == Done ==>
            && |s'| < |s| && ds != [] && ds[1..] == ReceiveBlocks(cs, s')
            && out' + JoinedTexts(ReceiveBlocks(cs, s')) == out + JoinedTexts(ds))
  {
    if |s| >= DATA_SIZE {
      OneBlock(cs, s);
      PrintedOne(Unpack(Decipher(cs, s[..DATA_SIZE])), s[DATA_SIZE..], s', out, out', r, ReceiveBlocks(cs, s[DATA_SIZE..]));
    }
  }

  lemma {:induction false} PrintedOne(d: Decoded, tail: seq<Byte>, s': seq<Byte>, out: seq<Byte>, out': seq<Byte>, r: Outcome, rest: seq<Decoded>)
    requires Printed(d, tail, s', out, out', r)
    ensures var ds := [d] + rest;
      && (r == Overran ==> ds[0].Overrun?)
      && (r == Done ==> s' == tail && ds[1..] == rest && out' + JoinedTexts(rest) == out + JoinedTexts(ds))
  {
    JoinedMore(d, rest);
  }

  lemma {:induction false} OneBlock(cs: Suite, s: seq<Byte>)
    requires Invertible(cs) && |s| >= DATA_SIZE
    ensures |Decipher(cs, s[..DATA_SIZE])| == DATA_SIZE
    ensures ReceiveBlocks(cs, s) == [Unpack(Decipher(cs, s[..DATA_SIZE]))] + ReceiveBlocks(cs, s[DATA_SIZE..])
  {
  }

  lemma {:induction false} JoinedMore(d: Decoded, rest: seq<Decoded>)
    ensures ([d] + rest)[1..] == rest
    ensures d.Text? ==> JoinedTexts([d] + rest) == d.m + JoinedTexts(rest)
  {
    assert ([d] + rest)[1..] == rest;
  }

  // Of a stream of blocks cut anywhere, exactly the messages whose blocks arrived whole.
  lemma BlocksPrinted(cs: Suite, ms: seq<Message>, cut: nat)
    requires Invertible(cs) && (forall m :: m in ms ==> Fitting(m)) && cut <= |Blocks(cs, ms)|
    ensures var ds := ReceiveBlocks(cs, Blocks(cs, ms)[..cut]);
      && cut / DATA_SIZE <= |ms| && JoinedTexts(ds) == Joined(ms[..cut / DATA_SIZE])
      && forall d :: d in ds ==> d.Text?
  {
    BlockPrefixSafety(cs, ms, cut);
    TextsJoined(ms[..cut / DATA_SIZE]);
    assert Texts(ms)[..cut / DATA_SIZE] == Texts(ms[..cut / DATA_SIZE]);
  }

  lemma {:induction false} TextsJoined(ms: seq<Message>)
    ensures JoinedTexts(Texts(ms)) == Joined(ms)
  {
    if ms != [] {
      assert Texts(ms)[1..] == Texts(ms[1..]);
      TextsJoined(ms[1..]);
    }
  }

  // ----- relaying -----

  ghost predicate Separate(clients: seq<Connection>) {
    forall i, j :: 0 <= i < j < |clients| ==> clients[i] != clients[j]
  }

  // No read or write has failed on these connections.
  twostate predicate NoErrors(conns: set<Connection>)
    reads conns
  {
    forall c :: c in conns ==> c.errors == old(c.errors)
  }

  function Set(clients: seq<Connection>): set<Connection> { set c | c in clients }

  // Writes the first `n` bytes of `buf` to every client but `me`, up to the first write that
  // fails, which is to client `stop`.
  method DistributePlain(clients: seq<Connection>, me: nat, buf: array<Byte>, n: nat) returns (ok: bool, ghost stop: nat)
    requires Separate(clients) && n <= buf.Length
    modifies Set(clients)`outbox, Set(clients)`errors
    ensures stop <= |clients| && (ok <==> stop == |clients|) && (!ok ==> stop != me)
    ensures forall i :: 0 <= i < |clients| ==> clients[i].errors == old(clients[i].errors) + if i == stop then 1 else 0
    ensures forall i :: 0 <= i < |clients| ==>
      if i == me || i > stop then clients[i].outbox == old(clients[i].outbox)
      else if i < stop then clients[i].outbox == old(clients[i].outbox) + buf[..n]
      else old(clients[i].outbox) <= clients[i].outbox < old(clients[i].outbox) + buf[..n]
  {
    for client := 0 to |clients|
      invariant forall i :: 0 <= i < |clients| ==>
        clients[i].outbox == old(clients[i].outbox) + (if i < client && i != me then buf[..n] else [])
        && clients[i].errors == old(clients[i].errors)
    {
      if client == me {
        continue;
      }
      var ret := InsistWrite(clients[client], buf, 0, n);
      if ret != n {
        return false, client;
      }
    }
    return true, |clients|;
  }

  // Reads one plaintext frame whole.
  method TakeFrame(sd: Connection) returns (r: Outcome, buf: array<Byte>, size: nat)
    modifies sd`inbox, sd`errors
    ensures fresh(buf) && (r == Done || r == Gone || r == Died) && sd.errors == old(sd.errors) + if r == Died then 1 else 0
    ensures match Receive(old(sd.inbox))
      case None => r != Done
      case Some((m, rest)) =>
        && r != Gone
        && (r == Done ==> sd.inbox == rest && size == |m| && LENGTH_BYTES + size <= buf.Length && buf[..LENGTH_BYTES + size] == Frame(m))
  {
    buf, size := new Byte[0], 0;
    var word := new Byte[LENGTH_BYTES];
    var n := InsistRead(sd, word, 0, LENGTH_BYTES);
    if n < 0 {
      return Died, buf, size;
    }
    if n <= 0 {
      return Gone, buf, size;
    }
    size := Get32(word[..]);
    assert word[..] == old(sd.inbox)[..LENGTH_BYTES];
    buf := new Byte[8 * (size + LENGTH_BYTES)];
    Copy(Be32(size), buf);
    n := InsistRead(sd, buf, LENGTH_BYTES, size);
    if n < 0 {
      return Died, buf, size;
    }
    if n <= 0 {
      return Gone, buf, size;
    }
    assert buf[LENGTH_BYTES..LENGTH_BYTES + size] == Receive(old(sd.inbox)).value.0;
    r := Done;
  }

  // Prints the message of a frame and passes the frame on, up to the first failure.
  method PassFrame(me: nat, clients: seq<Connection>, console: Connection, buf: array<Byte>, size: nat) returns (r: Outcome)
    requires Separate(clients) && console !in clients && LENGTH_BYTES + size <= buf.Length
    modifies console`outbox, console`errors, Set(clients)`outbox, Set(clients)`errors
    ensures (r == Done || r == Died) && (r == Died <==> !NoErrors({console} + Set(clients)))
    ensures r == Done ==> console.outbox == old(console.outbox) + buf[LENGTH_BYTES..LENGTH_BYTES + size]
    ensures forall i :: 0 <= i < |clients| ==>
      if i == me then clients[i].outbox == old(clients[i].outbox)
      else if r == Done then clients[i].outbox == old(clients[i].outbox) + buf[..LENGTH_BYTES + size]
      else old(clients[i].outbox) <= clients[i].outbox <= old(clients[i].outbox) + buf[..LENGTH_BYTES + size]
  {
    var ret := InsistWrite(console, buf, LENGTH_BYTES, size);
    if ret != size {
      assert console in {console} + Set(clients);
      return Died;
    }
    var ok, stop := DistributePlain(clients, me, buf, size + LENGTH_BYTES);
    if !ok {
      assert clients[stop] in {console} + Set(clients);
      return Died;
    }
    r := Done;
  }

  // One call of forward in plaintext mode: reads a frame from client `me` and passes it on.
  // It ends the process exactly if some read or write has failed.
  method ForwardPlain(sd: Connection, me: nat, clients: seq<Connection>, console: Connection) returns (r: Outcome)
    requires Separate(clients) && console !in clients && sd != console
    modifies sd`inbox, sd`errors, console`outbox, console`errors, Set(clients)`outbox, Set(clients)`errors
    ensures (r == Done || r == Gone || r == Died) && (r == Died <==> !NoErrors({sd, console} + Set(clients)))
    ensures match Receive(old(sd.inbox))
      case None =>
        r != Done && console.outbox == old(console.outbox)
        && forall i :: 0 <= i < |clients| ==> clients[i].outbox == old(clients[i].outbox)
      case Some((m, rest)) =>
        && r != Gone
        && (r == Done ==> sd.inbox == rest && console.outbox == old(console.outbox) + m)
        && forall i :: 0 <= i < |clients| ==>
             if i == me then clients[i].outbox == old(clients[i].outbox)
             else if r == Done then clients[i].outbox == old(clients[i].outbox) + Frame(m)
             else old(clients[i].outbox) <= clients[i].outbox <= old(clients[i].outbox) + Frame(m)
  {
    var buf, size;
    r, buf, size := TakeFrame(sd);
    if r != Done {
      assert sd in {sd, console} + Set(clients);
      return;
    }
    ghost var m := Receive(old(sd.inbox)).value.0;
    assert buf[LENGTH_BYTES..LENGTH_BYTES + size] == Frame(m)[LENGTH_BYTES..] == m;
    r := PassFrame(me, clients, console, buf, size);
  }

  // The place of client `i` among those other than `me`.
  function Turn(i: nat, me: nat): nat { if i > me then i - 1 else i }

  // Enciphers the first `n` bytes of the same buffer anew for every client but `me`, up to
  // the first failure, which is at client `stop`.
  method DistributeEncrypted(crypto: HostBackend, clients: seq<Connection>, me: nat, buf: array<Byte>, n: nat)
      returns (ok: bool, ghost stop: nat)
    requires Separate(clients) && Invertible(crypto.suite) && n <= DATA_SIZE <= buf.Length
    modifies crypto`dev, crypto`log, crypto`refused, buf, Set(clients)`outbox, Set(clients)`errors
    ensures stop <= |clients| && (ok <==> stop == |clients|) && (!ok ==> stop != me)
    ensures crypto.refused >= old(crypto.refused) && (ok <==> crypto.refused == old(crypto.refused) && NoErrors(Set(clients)))
    ensures ok ==> crypto.dev == old(crypto.dev)
    ensures RelayedTo(Fanout(crypto.suite, old(buf[..DATA_SIZE]), n, |clients|), Outboxes(clients), me, stop, old(Outboxes(clients)))
  {
    ghost var start, had := buf[..DATA_SIZE], Outboxes(clients);
    ghost var fan := Fanout(crypto.suite, start, n, |clients|);
    for client := 0 to |clients|
      invariant crypto.dev == old(crypto.dev) && TurnsTaken(start, fan, buf[..DATA_SIZE], Outboxes(clients), me, client, had)
      invariant crypto.refused == old(crypto.refused) && NoErrors(Set(clients))
    {
      ok := TurnOrSkip(crypto, clients, client, me, buf, n, start, fan, had);
      if !ok {
        return ok, client;
      }
    }
    AllTurns(start, fan, buf[..DATA_SIZE], Outboxes(clients), me, had);
    return true, |clients|;
  }

  // Client number `client` gets its turn, unless it is the sender.
  method TurnOrSkip(crypto: HostBackend, clients: seq<Connection>, client: nat, me: nat, buf: array<Byte>, n: nat,
                    ghost start: seq<Byte>, ghost fan: seq<seq<Byte>>, ghost had: seq<seq<Byte>>) returns (ok: bool)
    requires Separate(clients) && Invertible(crypto.suite) && n <= DATA_SIZE <= buf.Length
    requires client < |clients| && |start| == DATA_SIZE && fan == Fanout(crypto.suite, start, n, |clients|)
    requires TurnsTaken(start, fan, buf[..DATA_SIZE], Outboxes(clients), me, client, had)
    modifies crypto`dev, crypto`log, crypto`refused, buf, {clients[client]}`outbox, {clients[client]}`errors
    ensures crypto.refused >= old(crypto.refused) && (ok <==> crypto.refused == old(crypto.refused) && NoErrors(Set(clients)))
    ensures if ok then crypto.dev == old(crypto.dev) && TurnsTaken(start, fan, buf[..DATA_SIZE], Outboxes(clients), me, client + 1, had)
            else client != me && RelayedTo(fan, Outboxes(clients), me, client, had)
  {
    ok := true;
    if client == me {
      TurnSkipped(start, fan, buf[..DATA_SIZE], Outboxes(clients), me, had);
    } else {
      ok := RelayTurn(crypto, clients, client, me, buf, n, start, fan, had);
    }
  }

  lemma TurnSkipped(start: seq<Byte>, fan: seq<seq<Byte>>, now: seq<Byte>, has: seq<seq<Byte>>, me: nat, had: seq<seq<Byte>>)
    requires me < |has| && TurnsTaken(start, fan, now, has, me, me, had)
    ensures TurnsTaken(start, fan, now, has, me, me + 1, had)
  {
  }

  lemma AllTurns(start: seq<Byte>, fan: seq<seq<Byte>>, now: seq<Byte>, has: seq<seq<Byte>>, me: nat, had: seq<seq<Byte>>)
    requires TurnsTaken(start, fan, now, has, me, |has|, had)
    ensures RelayedTo(fan, has, me, |has|, had)
  {
  }

  // Every client below `stop` but `me` has been sent its turn of `fan`, after what it `had`,
  // and client `stop` at most a part of it.
  ghost predicate RelayedTo(fan: seq<seq<Byte>>, has: seq<seq<Byte>>, me: nat, stop: nat, had: seq<seq<Byte>>) {
    && stop <= |has| == |had| == |fan|
    && (forall i :: 0 <= i < |has| && i != stop ==> has[i] == if i < stop && i != me then had[i] + fan[Turn(i, me)] else had[i])
    && (stop < |has| ==> had[stop] <= has[stop] < had[stop] + fan[Turn(stop, me)])
  }

  ghost predicate TurnsTaken(start: seq<Byte>, fan: seq<seq<Byte>>, now: seq<Byte>, has: seq<seq<Byte>>, me: nat, k: nat, had: seq<seq<Byte>>) {
    Relayed(fan, has, me, k, had) && now == Before(start, fan, Turn(k, me))
  }

  // Client number `client` gets its turn.
  method RelayTurn(crypto: HostBackend, clients: seq<Connection>, client: nat, me: nat, buf: array<Byte>, n: nat,
                   ghost start: seq<Byte>, ghost fan: seq<seq<Byte>>, ghost had: seq<seq<Byte>>) returns (ok: bool)
    requires Separate(clients) && Invertible(crypto.suite) && n <= DATA_SIZE <= buf.Length
    requires client < |clients| && client != me && |start| == DATA_SIZE && fan == Fanout(crypto.suite, start, n, |clients|)
    requires TurnsTaken(start, fan, buf[..DATA_SIZE], Outboxes(clients), me, client, had)
    modifies crypto`dev, crypto`log, crypto`refused, buf, {clients[client]}`outbox, {clients[client]}`errors
    ensures crypto.refused >= old(crypto.refused) && (ok <==> crypto.refused == old(crypto.refused) && NoErrors(Set(clients)))
    ensures ok ==> crypto.dev == old(crypto.dev)
    ensures if ok then TurnsTaken(start, fan, buf[..DATA_SIZE], Outboxes(clients), me, client + 1, had)
            else RelayedTo(fan, Outboxes(clients), me, client, had)
  {
    ghost var was := Outboxes(clients);
    FanoutNext(crypto.suite, start, n, |clients|, Turn(client, me));
    ok := EncryptAndWrite(crypto, clients[client], buf, n);
    assert clients[client] in Set(clients);
    if ok {
      assert buf[..DATA_SIZE] == fan[Turn(client, me)];
      assert Outboxes(clients) == was[client := was[client] + buf[..DATA_SIZE]];
      TurnTaken(start, fan, Before(start, fan, Turn(client, me)), was, me, client, had, buf[..DATA_SIZE]);
    } else {
      assert Outboxes(clients) == was[client := clients[client].outbox];
    }
  }

  lemma TurnTaken(start: seq<Byte>, fan: seq<seq<Byte>>, now: seq<Byte>, has: seq<seq<Byte>>, me: nat, k: nat, had: seq<seq<Byte>>,
                  block: seq<Byte>)
    requires TurnsTaken(start, fan, now, has, me, k, had) && k < |has| && k != me && block == fan[Turn(k, me)]
    ensures TurnsTaken(start, fan, block, has[k := has[k] + block], me, k + 1, had)
  {
  }

  // What forwarding a block from the stream `s` comes to: what is left of it, what is printed,
  // and what the clients have been sent.
  ghost predicate BlockForwarded(cs: Suite, s: seq<Byte>, s': seq<Byte>, out: seq<Byte>, out': seq<Byte>, me: nat,
                                 has: seq<seq<Byte>>, had: seq<seq<Byte>>, r: Outcome)
    requires Invertible(cs)
  {
    if |s| < DATA_SIZE then (r == Gone || r == Died) && has == had
    else
      var d := Unpack(Decipher(cs, s[..DATA_SIZE]));
      && Printed(d, s[DATA_SIZE..], s', out, out', r)
      && (r == Done ==> SentOn(cs, d, me, has, had))
      && (if d.Text? then SentAtMost(cs, d, me, has, had) else has == had)
  }

  // One call of forward in encrypted mode.
  method ForwardEncrypted(crypto: HostBackend, sd: Connection, me: nat, clients: seq<Connection>, console: Connection)
      returns (r: Outcome)
    requires Separate(clients) && console !in clients && sd != console && Invertible(crypto.suite)
    modifies crypto`dev, crypto`log, crypto`refused, sd`inbox, sd`errors, console`outbox, console`errors, Set(clients)`outbox, Set(clients)`errors
    ensures r == Done || r == Gone ==> crypto.dev == old(crypto.dev)
    ensures r == Died <==> crypto.refused != old(crypto.refused) || !NoErrors({sd, console} + Set(clients))
    ensures BlockForwarded(crypto.suite, old(sd.inbox), sd.inbox, old(console.outbox), console.outbox, me, Outboxes(clients), old(Outboxes(clients)), r)
  {
    var buf, size := new Byte[8 * BUFF_SIZE], 0;
    r, size := TakeBlock(crypto, sd, buf);
    assert sd in {sd, console} + Set(clients);
    assert Outboxes(clients) == old(Outboxes(clients));
    NothingSent(crypto.suite, old(sd.inbox), me, Outboxes(clients));
    if r == Done {
      r := PassOn(crypto, me, clients, console, buf, size);
    }
  }

  lemma SendsNothing(cs: Suite, d: Decoded, me: nat, p: seq<Byte>, had: seq<seq<Byte>>)
    requires Invertible(cs) && |p| == DATA_SIZE && d == Unpack(p) && d.Text?
    ensures SentAtMost(cs, d, me, had, had)
  {
    TextBegins(p, d.m);
  }

  lemma NothingSent(cs: Suite, s: seq<Byte>, me: nat, had: seq<seq<Byte>>)
    requires Invertible(cs)
    ensures |s| >= DATA_SIZE && Unpack(Decipher(cs, s[..DATA_SIZE])).Text? ==> SentAtMost(cs, Unpack(Decipher(cs, s[..DATA_SIZE])), me, had, had)
  {
    if |s| >= DATA_SIZE && Unpack(Decipher(cs, s[..DATA_SIZE])).Text? {
      SendsNothing(cs, Unpack(Decipher(cs, s[..DATA_SIZE])), me, Decipher(cs, s[..DATA_SIZE]), had);
    }
  }

  // Prints the message of a decrypted buffer and sends it on.
  method PassOn(crypto: HostBackend, me: nat, clients: seq<Connection>, console: Connection, buf: array<Byte>, size: nat)
      returns (r: Outcome)
    requires Separate(clients) && console !in clients && Invertible(crypto.suite) && buf.Length >= DATA_SIZE
    requires LENGTH_BYTES + size <= DATA_SIZE && Unpack(buf[..DATA_SIZE]) == Text(buf[LENGTH_BYTES..LENGTH_BYTES + size])
    modifies crypto`dev, crypto`log, crypto`refused, buf, console`outbox, console`errors, Set(clients)`outbox, Set(clients)`errors
    ensures r == Done || r == Died
    ensures crypto.refused >= old(crypto.refused)
    ensures r == Died <==> crypto.refused != old(crypto.refused) || !NoErrors({console} + Set(clients))
    ensures r == Done ==>
      && crypto.dev == old(crypto.dev) && console.outbox == old(console.outbox + buf[LENGTH_BYTES..LENGTH_BYTES + size])
      && SentOn(crypto.suite, old(Unpack(buf[..DATA_SIZE])), me, Outboxes(clients), old(Outboxes(clients)))
    ensures SentAtMost(crypto.suite, old(Unpack(buf[..DATA_SIZE])), me, Outboxes(clients), old(Outboxes(clients)))
  {
    SendsNothing(crypto.suite, Unpack(buf[..DATA_SIZE]), me, buf[..DATA_SIZE], Outboxes(clients));
    var ret := InsistWrite(console, buf, LENGTH_BYTES, size);
    assert console in {console} + Set(clients);
    if ret != size {
      return Died;
    }
    assert Outboxes(clients) == old(Outboxes(clients));
    var ok := SendOn(crypto, me, clients, buf, size);
    r := if ok then Done else Died;
  }

  // Sends the message of a decrypted buffer on.
  method SendOn(crypto: HostBackend, me: nat, clients: seq<Connection>, buf: array<Byte>, size: nat) returns (ok: bool)
    requires Separate(clients) && Invertible(crypto.suite) && buf.Length >= DATA_SIZE
    requires LENGTH_BYTES + size <= DATA_SIZE && Unpack(buf[..DATA_SIZE]) == Text(buf[LENGTH_BYTES..LENGTH_BYTES + size])
    modifies crypto`dev, crypto`log, crypto`refused, buf, Set(clients)`outbox, Set(clients)`errors
    ensures crypto.refused >= old(crypto.refused) && (ok <==> crypto.refused == old(crypto.refused) && NoErrors(Set(clients)))
    ensures ok ==> crypto.dev == old(crypto.dev) && SentOn(crypto.suite, old(Unpack(buf[..DATA_SIZE])), me, Outboxes(clients), old(Outboxes(clients)))
    ensures SentAtMost(crypto.suite, old(Unpack(buf[..DATA_SIZE])), me, Outboxes(clients), old(Outboxes(clients)))
  {
    ghost var m, had := Unpack(buf[..DATA_SIZE]).m, Outboxes(clients);
    FanoutOfText(crypto.suite, buf[..DATA_SIZE], m, |clients|);
    ghost var stop;
    ok, stop := DistributeEncrypted(crypto, clients, me, buf, size + LENGTH_BYTES);
    RelayedIsSent(crypto.suite, m, me, stop, Outboxes(clients), had);
  }

  lemma RelayedIsSent(cs: Suite, m: Message, me: nat, stop: nat, has: seq<seq<Byte>>, had: seq<seq<Byte>>)
    requires Invertible(cs) && Fitting(m) && RelayedTo(Fanout(cs, Pad(Frame(m)), |Frame(m)|, |had|), has, me, stop, had)
    requires stop < |has| ==> stop != me
    ensures SentAtMost(cs, Text(m), me, has, had) && (stop == |has| ==> SentOn(cs, Text(m), me, has, had))
  {
  }

  /** What is sent on depends only on the message in the buffer. */
  lemma FanoutOfText(cs: Suite, p: seq<Byte>, m: Message, count: nat)
    requires Invertible(cs) && |p| == DATA_SIZE && Unpack(p) == Text(m)
    ensures Fanout(cs, p, |Frame(m)|, count) == Fanout(cs, Pad(Frame(m)), |Frame(m)|, count)
  {
    TextBegins(p, m);
  }

  ghost function Outboxes(clients: seq<Connection>): (o: seq<seq<Byte>>)
    reads clients
    ensures |o| == |clients|
  {
    seq(|clients|, i requires 0 <= i < |clients| reads clients => clients[i].outbox)
  }

  // Every client but `me` has been sent its turn of the decoded message.
  ghost predicate SentOn(cs: Suite, d: Decoded, me: nat, has: seq<seq<Byte>>, had: seq<seq<Byte>>)
    requires Invertible(cs)
  {
    d.Text? && Fitting(d.m) && Relayed(Fanout(cs, Pad(Frame(d.m)), |Frame(d.m)|, |had|), has, me, |had|, had)
  }

  // Every client but `me` has been sent its turn of the decoded message, a part of it, or
  // nothing.
  ghost predicate SentAtMost(cs: Suite, d: Decoded, me: nat, has: seq<seq<Byte>>, had: seq<seq<Byte>>)
    requires Invertible(cs)
  {
    && d.Text? && Fitting(d.m) && |has| == |had|
    && var fan := Fanout(cs, Pad(Frame(d.m)), |Frame(d.m)|, |had|);
       |fan| == |had| && forall i :: 0 <= i < |has| ==>
         if i == me then has[i] == had[i] else had[i] <= has[i] <= had[i] + fan[Turn(i, me)]
  }

  // Every client below `k` but `me` has been sent its turn of `fan`, after what it `had`.
  ghost predicate Relayed(fan: seq<seq<Byte>>, has: seq<seq<Byte>>, me: nat, k: nat, had: seq<seq<Byte>>) {
    && k <= |has| == |had| == |fan|
    && forall i :: 0 <= i < |has| ==> has[i] == if i < k && i != me then had[i] + fan[Turn(i, me)] else had[i]
  }

  method EncryptAndWrite(crypto: HostBackend, conn: Connection, buf: array<Byte>, n: nat) returns (ok: bool)
    requires Invertible(crypto.suite) && n <= DATA_SIZE <= buf.Length
    modifies crypto`dev, crypto`log, crypto`refused, buf, conn`outbox, conn`errors
    ensures crypto.refused + conn.errors == old(crypto.refused + conn.errors) + if ok then 0 else 1
    ensures crypto.refused >= old(crypto.refused) && conn.errors >= old(conn.errors)
    ensures !ok ==> old(conn.outbox) <= conn.outbox < old(conn.outbox) + Encipher(crypto.suite, Pad(old(buf[..DATA_SIZE])[..n]))
    ensures ok ==> crypto.dev == old(crypto.dev)
    ensures ok ==> buf[..DATA_SIZE] == Encipher(crypto.suite, Pad(old(buf[..DATA_SIZE])[..n]))
    ensures ok ==> conn.outbox == old(conn.outbox) + buf[..DATA_SIZE]
  {
    assert buf[..DATA_SIZE][..n] == buf[..n];
    var r := Encrypt(crypto, buf, n);
    if r != Done {
      return false;
    }
    var ret := InsistWrite(conn, buf, 0, DATA_SIZE);
    ok := ret == DATA_SIZE;
  }
}

/** The chat wire format: length-prefixed frames in plaintext mode, fixed 256-byte
    blocks in encrypted mode, and what a receiver makes of any prefix of a stream. */
module ChatFraming {
  import opened Options
  import opened CryptoDevice

  const BUFF_SIZE: nat := 300
  const DATA_SIZE: nat := 256
  const LENGTH_BYTES: nat := 4

  // ----- the length word -----

  function Be32(n: nat): (s: seq<Byte>)
    ensures |s| == LENGTH_BYTES
  {
    [n / 0x100_0000 % 256, n / 0x1_0000 % 256, n / 256 % 256, n % 256]
  }

  function Get32(s: seq<Byte>): nat
    requires |s| >= LENGTH_BYTES
  {
    s[0] as nat * 0x100_0000 + s[1] as nat * 0x1_0000 + s[2] as nat * 256 + s[3] as nat
  }

  /** Four bytes, the highest first, read back as written. */
  lemma Be32RoundTrip(n: nat, rest: seq<Byte>)
    requires n < 0x1_0000_0000
    ensures ((Be32(n)[0] as nat * 256 + Be32(n)[1]) * 256 + Be32(n)[2]) * 256 + Be32(n)[3] == n
    ensures Get32(Be32(n) + rest) == n
  {
    assert n == n / 256 * 256 + n % 256;
    assert n / 256 == n / 256 / 256 * 256 + n / 256 % 256;
    assert n / 256 / 256 == n / 0x1_0000 && n / 0x1_0000 / 256 == n / 0x100_0000;
    assert n / 0x1_0000 == n / 0x1_0000 / 256 * 256 + n / 0x1_0000 % 256;
    assert n / 0x100_0000 < 256;
  }

  // ----- plaintext frames -----

  type Message = seq<Byte>

  function Frame(m: Message): (f: seq<Byte>)
    ensures |f| == LENGTH_BYTES + |m|
  {
    Be32(|m|) + m
  }

  function Frames(ms: seq<Message>): seq<Byte> {
    if ms == [] then [] else Frame(ms[0]) + Frames(ms[1..])
  }

  /** What one receive call makes of the bytes `s` left on a connection: nothing when the
      connection ends first, or when the length is zero, which a read of no bytes reports
      as the end. */
  function Receive(s: seq<Byte>): Option<(Message, seq<Byte>)> {
    if |s| < LENGTH_BYTES then None
    else
      var size := Get32(s);
      if size == 0 || |s| < LENGTH_BYTES + size then None
      else Some((s[LENGTH_BYTES..LENGTH_BYTES + size], s[LENGTH_BYTES + size..]))
  }

  function ReceiveAll(s: seq<Byte>): seq<Message>
    decreases |s|
  {
    match Receive(s)
    case None => []
    case Some((m, rest)) => [m] + ReceiveAll(rest)
  }

  /** How many of the frames of `ms` lie within the first `t` bytes. */
  function Whole(ms: seq<Message>, t: nat): (k: nat)
    ensures k <= |ms|
  {
    if ms == [] || t < |Frame(ms[0])| then 0 else 1 + Whole(ms[1..], t - |Frame(ms[0])|)
  }

  predicate Sendable(m: Message) { 0 < |m| < 0x1_0000_0000 }

  lemma ReceiveFrame(m: Message, rest: seq<Byte>)
    requires |m| < 0x1_0000_0000
    ensures Receive(Frame(m) + rest) == if m == [] then None else Some((m, rest))
  {
    Be32RoundTrip(|m|, m + rest);
    assert Frame(m) + rest == Be32(|m|) + (m + rest);
    var s := Frame(m) + rest;
    assert s[LENGTH_BYTES..LENGTH_BYTES + |m|] == m && s[LENGTH_BYTES + |m|..] == rest;
  }

  /** A connection cut inside a frame yields nothing of that frame. */
  lemma ReceiveCut(m: Message, t: nat)
    requires |m| < 0x1_0000_0000 && t < |Frame(m)|
    ensures Receive(Frame(m)[..t]) == None
  {
    if t >= LENGTH_BYTES {
      Be32RoundTrip(|m|, m[..t - LENGTH_BYTES]);
      assert Frame(m)[..t] == Be32(|m|) + m[..t - LENGTH_BYTES];
    }
  }

  /** Wherever the connection is cut, the receiver gets exactly the messages whose frames
      arrived whole, in order and unchanged. */
  lemma {:induction false} PrefixSafety(ms: seq<Message>, t: nat)
    requires forall m :: m in ms ==> Sendable(m)
    requires t <= |Frames(ms)|
    ensures ReceiveAll(Frames(ms)[..t]) == ms[..Whole(ms, t)]
  {
    if ms == [] {
    } else if t < |Frame(ms[0])| {
      assert ms[0] in ms && Frames(ms)[..t] == Frame(ms[0])[..t];
      ReceiveCut(ms[0], t);
    } else {
      var t' := t - |Frame(ms[0])|;
      assert Frames(ms)[..t] == Frame(ms[0]) + Frames(ms[1..])[..t'];
      assert ms[0] in ms;
      ReceiveFrame(ms[0], Frames(ms[1..])[..t']);
      PrefixSafety(ms[1..], t');
      assert ms[..Whole(ms, t)] == [ms[0]] + ms[1..][..Whole(ms[1..], t')];
    }
  }

  /** The whole stream arrives as sent exactly when no message is empty: an empty one
      looks like the end of the connection. */
  lemma {:induction false} RoundTripExactly(ms: seq<Message>)
    requires forall m :: m in ms ==> |m| < 0x1_0000_0000
    ensures ReceiveAll(Frames(ms)) == ms <==> [] !in ms
  {
    if ms != [] {
      assert ms[0] in ms;
      ReceiveFrame(ms[0], Frames(ms[1..]));
      RoundTripExactly(ms[1..]);
      assert ms == [ms[0]] + ms[1..];
    }
  }

  lemma {:induction false} FramesAppend(ms: seq<Message>, m: Message)
    ensures Frames(ms + [m]) == Frames(ms) + Frame(m)
  {
    if ms == [] {
      assert [m][1..] == [];
    } else {
      FramesAppend(ms[1..], m);
      assert (ms + [m])[1..] == ms[1..] + [m];
    }
  }

  // ----- encrypted blocks -----

  const CHAR_ZERO: Byte := 48

  function ChatIv(): seq<Byte> { seq(16, _ => 49) }

  function ChatKey(): seq<Byte> { seq(16, i requires 0 <= i < 16 => 48 + i) }

  function Encipher(cs: Suite, x: seq<Byte>): seq<Byte> { cs.run(Session(11, ChatKey()), 0, ChatIv(), x) }

  function Decipher(cs: Suite, x: seq<Byte>): seq<Byte> { cs.run(Session(11, ChatKey()), 1, ChatIv(), x) }

  /** The cipher keeps the length of a 256-byte buffer, and deciphering undoes enciphering. */
  ghost predicate Invertible(cs: Suite) {
    && (forall x :: |x| == DATA_SIZE ==> |Encipher(cs, x)| == DATA_SIZE && Decipher(cs, Encipher(cs, x)) == x)
    && (forall y :: |y| == DATA_SIZE ==> |Decipher(cs, y)| == DATA_SIZE)
  }

  /** A buffer filled up to 256 bytes with the character '0'. */
  function Pad(x: seq<Byte>): (p: seq<Byte>)
    requires |x| <= DATA_SIZE
    ensures |p| == DATA_SIZE && p[..|x|] == x
  {
    x + seq(DATA_SIZE - |x|, _ => CHAR_ZERO)
  }

  /** What a receiver prints of a decrypted buffer: the text, unless the length it finds
      runs beyond the buffer. */
  datatype Decoded = Text(m: Message) | Overrun(size: nat)

  function Unpack(p: seq<Byte>): Decoded
    requires |p| == DATA_SIZE
  {
    var size := Get32(p);
    if LENGTH_BYTES + size <= DATA_SIZE then Text(p[LENGTH_BYTES..LENGTH_BYTES + size]) else Overrun(size)
  }

  predicate Fitting(m: Message) { LENGTH_BYTES + |m| <= DATA_SIZE }

  function Blocks(cs: Suite, ms: seq<Message>): seq<Byte>
    requires forall m :: m in ms ==> Fitting(m)
  {
    if ms == [] then []
    else
      assert Fitting(ms[0]);
      Encipher(cs, Pad(Frame(ms[0]))) + Blocks(cs, ms[1..])
  }

  function ReceiveBlocks(cs: Suite, s: seq<Byte>): seq<Decoded>
    decreases |s|
  {
    if |s| < DATA_SIZE || |Decipher(cs, s[..DATA_SIZE])| != DATA_SIZE then []
    else [Unpack(Decipher(cs, s[..DATA_SIZE]))] + ReceiveBlocks(cs, s[DATA_SIZE..])
  }

  function Texts(ms: seq<Message>): (ts: seq<Decoded>)
    ensures |ts| == |ms|
  {
    seq(|ms|, i requires 0 <= i < |ms| => Text(ms[i]))
  }

  lemma UnpackPadded(m: Message)
    requires Fitting(m)
    ensures Unpack(Pad(Frame(m))) == Text(m)
  {
    var fill := Pad(Frame(m))[|Frame(m)|..];
    Be32RoundTrip(|m|, m + fill);
    assert Pad(Frame(m)) == Be32(|m|) + (m + fill);
  }

  lemma {:induction false} BlocksLength(cs: Suite, ms: seq<Message>)
    requires Invertible(cs) && forall m :: m in ms ==> Fitting(m)
    ensures |Blocks(cs, ms)| == DATA_SIZE * |ms|
  {
    if ms != [] {
      BlocksLength(cs, ms[1..]);
    }
  }

  lemma FirstBlock(cs: Suite, m: Message, rest: seq<Byte>)
    requires Invertible(cs) && Fitting(m)
    ensures ReceiveBlocks(cs, Encipher(cs, Pad(Frame(m))) + rest) == [Text(m)] + ReceiveBlocks(cs, rest)
  {
    var b := Encipher(cs, Pad(Frame(m)));
    assert (b + rest)[..DATA_SIZE] == b && (b + rest)[DATA_SIZE..] == rest;
    UnpackPadded(m);
  }

  /** The same for encrypted mode: cut anywhere, the receiver gets exactly the messages
      whose blocks arrived whole. Here even empty messages arrive. */
  lemma {:induction false} BlockPrefixSafety(cs: Suite, ms: seq<Message>, t: nat)
    requires Invertible(cs) && forall m :: m in ms ==> Fitting(m)
    requires t <= |Blocks(cs, ms)|
    ensures t / DATA_SIZE <= |ms|
    ensures ReceiveBlocks(cs, Blocks(cs, ms)[..t]) == Texts(ms)[..t / DATA_SIZE]
  {
    BlocksLength(cs, ms);
    if ms == [] || t < DATA_SIZE {
    } else {
      var b, rest := Encipher(cs, Pad(Frame(ms[0]))), Blocks(cs, ms[1..]);
      var t' := t - DATA_SIZE;
      assert Blocks(cs, ms)[..t] == b + rest[..t'];
      FirstBlock(cs, ms[0], rest[..t']);
      BlockPrefixSafety(cs, ms[1..], t');
      assert t' / DATA_SIZE + 1 == t / DATA_SIZE;
      assert Texts(ms)[..t / DATA_SIZE] == [Text(ms[0])] + Texts(ms[1..])[..t' / DATA_SIZE];
    }
  }

  // ----- relaying encrypted frames -----

  /** The buffers the relay sends to `n` recipients in turn: it enciphers the first
      `size` bytes of the same buffer in place, once per recipient. */
  function Fanout(cs: Suite, buf: seq<Byte>, size: nat, n: nat): (f: seq<seq<Byte>>)
    requires |buf| == DATA_SIZE && size <= DATA_SIZE && Invertible(cs)
    ensures |f| == n
    decreases n
  {
    if n == 0 then []
    else
      var next := Encipher(cs, Pad(buf[..size]));
      [next] + Fanout(cs, next, size, n - 1)
  }

  /** The first recipient of a well-formed block gets back the very bytes that were sent. */
  lemma FirstRecipientTransparent(cs: Suite, m: Message, n: nat)
    requires Invertible(cs) && Fitting(m) && n > 0
    ensures var block := Encipher(cs, Pad(Frame(m)));
      Fanout(cs, Decipher(cs, block), |Frame(m)|, n)[0] == block
  {
    assert Pad(Pad(Frame(m))[..|Frame(m)|]) == Pad(Frame(m));
  }

  /** Once a buffer reproduces itself it goes out unchanged to everyone. */
  lemma {:induction false} FixedFanout(cs: Suite, buf: seq<Byte>, size: nat, n: nat)
    requires Invertible(cs) && |buf| == DATA_SIZE && size <= DATA_SIZE
    requires Encipher(cs, Pad(buf[..size])) == buf
    ensures Fanout(cs, buf, size, n) == seq(n, _ => buf)
  {
    if n > 0 {
      FixedFanout(cs, buf, size, n - 1);
      assert seq(n, _ => buf) == [buf] + seq(n - 1, _ => buf);
    }
  }

  /** Every recipient gets the block as sent exactly when there is at most one of them, or
      the ciphertext happens to begin with the frame itself. */
  lemma RelayExactly(cs: Suite, m: Message, n: nat)
    requires Invertible(cs) && Fitting(m)
    ensures var (p, size) := (Pad(Frame(m)), |Frame(m)|);
      Fanout(cs, p, size, n) == seq(n, _ => Encipher(cs, p)) <==> n <= 1 || Encipher(cs, p)[..size] == Frame(m)
  {
    var p, size := Pad(Frame(m)), |Frame(m)|;
    var c := Encipher(cs, p);
    assert Pad(p[..size]) == p;
    if n == 1 {
      assert Fanout(cs, p, size, 1) == [c] + Fanout(cs, c, size, 0) == [c];
      assert seq(1, _ => c) == [c];
    } else if n >= 2 {
      assert Fanout(cs, p, size, n) == [c] + Fanout(cs, c, size, n - 1);
      if c[..size] == Frame(m) {
        FixedFanout(cs, c, size, n - 1);
        assert seq(n, _ => c) == [c] + seq(n - 1, _ => c);
      } else {
        var c2 := Encipher(cs, Pad(c[..size]));
        assert Fanout(cs, p, size, n)[1] == c2;
        assert Decipher(cs, c2) == Pad(c[..size]);
        assert Pad(c[..size])[..size] == c[..size];
        assert Decipher(cs, c)[..size] == Frame(m);
        assert seq(n, _ => c)[1] == c;
      }
    }
  }

  /** What the buffer holds before turn `k`. */
  ghost function Before(buf: seq<Byte>, fan: seq<seq<Byte>>, k: nat): seq<Byte>
    requires k <= |fan|
  {
    if k == 0 then buf else fan[k - 1]
  }

  /** Every turn enciphers what the turn before has left in the buffer. */
  lemma {:induction false} FanoutNext(cs: Suite, buf: seq<Byte>, n: nat, count: nat, k: nat)
    requires |buf| == DATA_SIZE && n <= DATA_SIZE && Invertible(cs) && k < count
    ensures var fan := Fanout(cs, buf, n, count);
      |Before(buf, fan, k)| == DATA_SIZE && fan[k] == Encipher(cs, Pad(Before(buf, fan, k)[..n]))
    decreases count
  {
    if k > 0 {
      FanoutNext(cs, Encipher(cs, Pad(buf[..n])), n, count - 1, k - 1);
    }
  }

  /** What recipient number `k` decodes is the message sent if and only if what the
      recipient before it was sent begins with the frame, or there is none before it. */
  lemma RecipientExactly(cs: Suite, m: Message, count: nat, k: nat)
    requires Invertible(cs) && Fitting(m) && k < count
    ensures var (p, size) := (Pad(Frame(m)), |Frame(m)|);
      var fan := Fanout(cs, p, size, count);
      && |Decipher(cs, fan[k])| == DATA_SIZE && (k > 0 ==> |fan[k - 1]| == DATA_SIZE)
      && (Unpack(Decipher(cs, fan[k])) == Text(m) <==> k == 0 || fan[k - 1][..size] == Frame(m))
  {
    var p, size := Pad(Frame(m)), |Frame(m)|;
    var fan := Fanout(cs, p, size, count);
    FanoutNext(cs, p, size, count, k);
    var was := Before(p, fan, k);
    var got := Pad(was[..size]);
    assert Decipher(cs, fan[k]) == got;
    assert got[..size] == was[..size] && p[..size] == Frame(m);
    UnpackPadded(m);
    if Unpack(got) == Text(m) {
      TextBegins(got, m);
    }
  }

  /** A frame begins with a zero byte; a ciphertext that does not is no use to the second recipient. */
  lemma SecondGarbled(cs: Suite, m: Message)
    requires Invertible(cs) && Fitting(m) && Encipher(cs, Pad(Frame(m)))[0] != 0
    ensures Unpack(Decipher(cs, Fanout(cs, Pad(Frame(m)), |Frame(m)|, 2)[1])) != Text(m)
  {
    var p, size := Pad(Frame(m)), |Frame(m)|;
    RecipientExactly(cs, m, 2, 1);
    FanoutNext(cs, p, size, 2, 0);
    assert Pad(p[..size]) == p;
    assert Fanout(cs, p, size, 2)[0][..size][0] != 0 == Frame(m)[0];
  }

  /** A buffer decodes to `m` only if it begins with the frame of `m`. */
  lemma TextBegins(p: seq<Byte>, m: Message)
    requires |p| == DATA_SIZE && Unpack(p) == Text(m)
    ensures p[..|Frame(m)|] == Frame(m)
  {
    Get32Injective(p[..LENGTH_BYTES], |m|);
    assert p[..|Frame(m)|] == p[..LENGTH_BYTES] + p[LENGTH_BYTES..|Frame(m)|];
  }

  lemma Get32Injective(s: seq<Byte>, n: nat)
    requires |s| == LENGTH_BYTES && Get32(s) == n
    ensures s == Be32(n)
  {
    var b0: nat, b1: nat, b2: nat := s[0], s[1], s[2];
    assert n / 256 == b0 * 0x1_0000 + b1 * 256 + b2;
    assert n / 0x1_0000 == b0 * 256 + b1;
    assert n / 0x100_0000 == b0;
  }
}

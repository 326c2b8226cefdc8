/**
 The auth_chain_a and auth_chain_b stream framing (ssr/protocol/auth_chain_a.go).

 Every frame is masked, padded and authenticated with values that depend on the frame before it. The
 repository holds the client; the peer is modelled as another party running the same packing code.
 */
module AuthChain {
  import opened Common
  import opened Bytes
  import opened XorShift
  import opened ChainPadding
  import opened FrameStream
  import opened SsrKeys

  /**
   What the two ends share. The keyed hash, the stream cipher's key stream and the source of random
   bytes are arbitrary functions.
   */
  datatype Keys = Keys(
    userKey: seq<byte>,
    hmac: (seq<byte>, seq<byte>) -> Digest,
    stream: nat -> byte,
    padding: Method,
    random: nat -> nat)

  /** The sending half: last digest, frame number, generator, cipher offset, random bytes used. */
  datatype Sender = Sender(hash: Digest, id: u32, rng: Rng, cipher: nat, drawn: nat)

  /** The receiving half. */
  datatype Receiver = Receiver(hash: Digest, id: u32, rng: Rng, cipher: nat)

  function MacKey(k: Keys, id: u32): seq<byte> {
    k.userKey + Le32(id)
  }

  /** The stream cipher at a given offset; encryption and decryption are the same operation. */
  function Crypt(k: Keys, offset: nat, data: seq<byte>): (r: seq<byte>)
    ensures |r| == |data|
  {
    seq(|data|, i requires 0 <= i < |data| => Xor8(data[i], k.stream(offset + i)))
  }

  lemma CryptTwice(k: Keys, offset: nat, data: seq<byte>)
    ensures Crypt(k, offset, Crypt(k, offset, data)) == data
  {
    var once := Crypt(k, offset, data);
    forall i | 0 <= i < |data| ensures Crypt(k, offset, once)[i] == data[i] {
      XorInvolutive(data[i], k.stream(offset + i));
    }
  }

  /** Where in its padding a payload starts. */
  function StartPos(len: nat, rng: Rng): (pos: nat)
    ensures pos <= len && (len > 0 ==> pos < len)
  {
    if len == 0 then 0 else Draw(rng) % 8589934609 % len
  }

  function Mask(hash: Digest): u16 {
    FromLe16(hash[14..16])
  }

  // -------- packing --------

  /** The padded payload without its length and checksum, and the generator afterwards. */
  function Body(k: Keys, p: Padding, drawn: nat, data: seq<byte>): (r: (seq<byte>, Rng))
    ensures |r.0| == |data| + p.len
  {
    var noise := Noise(k.random, drawn, p.len);
    if data == [] then (noise, p.rng)
    else if p.len > 0 then
      var start := StartPos(p.len, p.rng);
      (noise[..start] + data + noise[start..], Advance(p.rng))
    else (data, p.rng)
  }

  /** One frame for a payload, and the sender after it. */
  function Pack(k: Keys, s: Sender, data: seq<byte>): (r: (seq<byte>, Sender))
  {
    var p := k.padding(|data|, s.hash, s.rng);
    var (body, rng) := Body(k, p, s.drawn, Crypt(k, s.cipher, data));
    var packet := Le16(Xor16(|data| % 0x1_0000, Mask(s.hash))) + body;
    var digest := k.hmac(MacKey(k, s.id), packet);
    (packet + digest[..2], Sender(digest, Inc32(s.id), rng, s.cipher + |data|, s.drawn + p.len))
  }

  // -------- unpacking --------

  /** What the receiver makes of a frame known to be whole. */
  function Unpack(k: Keys, r: Receiver, p: Padding, n: nat, frame: seq<byte>): Turn<Receiver>
    requires |frame| == n + p.len + 4
  {
    var length := n + p.len;
    var digest := k.hmac(MacKey(k, r.id), frame[..length + 2]);
    if digest[..2] != frame[length + 2..] then
      Fail(WrongChecksum, r.(hash := p.hash, rng := p.rng))
    else
      var padded := n > 0 && p.len > 0;
      var start := if padded then StartPos(p.len, p.rng) else 0;
      var plain := Crypt(k, r.cipher, frame[2 + start..2 + start + n]);
      var next := Receiver(digest, Inc32(r.id), if padded then Advance(p.rng) else p.rng, r.cipher + n);
      if r.id != 1 then Frame(length + 4, plain, next)
      else if n < 2 then Fail(OutOfRange, next)
      else Frame(length + 4, plain[2..], next)
  }

  /** One turn of the decoding loop. The digest and generator change even when the frame is incomplete. */
  function Parse(k: Keys, r: Receiver, src: seq<byte>): Turn<Receiver> {
    if |src| <= 4 then More(r)
    else
      var n := Xor16(FromLe16(src[..2]), Mask(r.hash));
      var p := k.padding(n, r.hash, r.rng);
      if n + p.len >= 4096 then Fail(WrongLength, r.(hash := p.hash, rng := p.rng))
      else if 4 + n + p.len > |src| then More(r.(hash := p.hash, rng := p.rng))
      else Unpack(k, r, p, n, src[..4 + n + p.len])
  }

  function ParserOf(k: Keys): (p: Parser<Receiver>)
    ensures Advances(p)
  {
    (r: Receiver, src: seq<byte>) => Parse(k, r, src)
  }

  /**
   What decoding makes of the bytes at hand, if there are more than four: it refuses lengths from 4096 on, waits for
   whole frames, and accepts a whole frame if and only if its last two bytes are those of the digest of the rest
   under the key for the number expected (and, for number 1, it has the two bytes to drop).
   */
  lemma AcceptsIff(k: Keys, r: Receiver, src: seq<byte>)
    requires |src| > 4
    ensures var n := Xor16(src[0] as int + 0x100 * src[1] as int, r.hash[14] as int + 0x100 * r.hash[15] as int);
            var p := k.padding(n, r.hash, r.rng);
            var size := n + p.len + 4;
            var turn := Parse(k, r, src);
            && (n + p.len >= 4096 <==> turn.Fail? && turn.error == WrongLength)
            && (n + p.len < 4096 && size > |src| <==> turn.More?)
            && (n + p.len < 4096 && size <= |src| ==>
                  var digest := k.hmac(k.userKey + Le32(r.id), src[..size - 2]);
                  && (digest[..2] != src[size - 2..size] <==> turn.Fail? && turn.error == WrongChecksum)
                  && (digest[..2] == src[size - 2..size] && r.id == 1 && n < 2 <==> turn.Fail? && turn.error == OutOfRange)
                  && (digest[..2] == src[size - 2..size] && (r.id != 1 || n >= 2) <==> turn.Frame?)
                  && (turn.Frame? ==> turn.size == size && turn.state.hash == digest && turn.state.id == Inc32(r.id)))
  {
    hide Xor16, Crypt, Draw, Advance, Le32, StartPos;
    assert src[..2][0] == src[0] && src[..2][1] == src[1];
    assert r.hash[14..16][0] == r.hash[14] && r.hash[14..16][1] == r.hash[15];
    var n := Xor16(FromLe16(src[..2]), Mask(r.hash));
    var p := k.padding(n, r.hash, r.rng);
    var size := n + p.len + 4;
    if size <= |src| {
      assert src[..size][..size - 2] == src[..size - 2] && src[..size][size - 2..] == src[size - 2..size];
    }
  }

  // -------- decoding does not depend on where it stops --------

  /** Receivers that differ only in what the next turn overwrites. */
  predicate Alike(r: Receiver, t: Receiver) {
    AlikeHash(r.hash, t.hash) && r.id == t.id && r.cipher == t.cipher
  }

  lemma AlikeMask(a: Digest, b: Digest)
    requires AlikeHash(a, b)
    ensures Mask(a) == Mask(b)
  {
    assert a[14..16] == a[2..][12..14] && b[14..16] == b[2..][12..14];
  }

  lemma UnpackRespects(k: Keys, r: Receiver, t: Receiver, p: Padding, q: Padding, n: nat, frame: seq<byte>)
    requires |frame| == n + p.len + 4 && p.len == q.len && (p.len == 0 || p.rng == q.rng)
    requires Alike(r, t) && AlikeHash(p.hash, r.hash) && AlikeHash(q.hash, t.hash)
    ensures SameTurn(Alike, Unpack(k, r, p, n, frame), Unpack(k, t, q, n, frame))
  {
    hide Crypt, StartPos, Draw, Advance, MacKey, Inc32;
    var digest := k.hmac(MacKey(k, r.id), frame[..n + p.len + 2]);
    assert AlikeHash(digest, digest);
  }

  lemma ParseRespects(k: Keys, r: Receiver, t: Receiver, src: seq<byte>)
    requires Reseeds(k.padding) && Alike(r, t)
    ensures SameTurn(Alike, Parse(k, r, src), Parse(k, t, src))
  {
    hide Unpack, Xor16, Mask;
    AlikeMask(r.hash, t.hash);
    if |src| > 4 {
      var n := Xor16(FromLe16(src[..2]), Mask(r.hash));
      SameLength(k.padding, n, r.hash, t.hash, r.rng, t.rng);
      var p, q := k.padding(n, r.hash, r.rng), k.padding(n, t.hash, t.rng);
      if n + p.len + 4 <= |src| {
        UnpackRespects(k, r, t, p, q, n, src[..n + p.len + 4]);
      }
    }
  }

  /** The three outcomes of unpacking. */
  lemma UnpackCases(k: Keys, r: Receiver, p: Padding, n: nat, frame: seq<byte>)
    requires |frame| == n + p.len + 4
    ensures var digest := k.hmac(MacKey(k, r.id), frame[..n + p.len + 2]);
            var start := if n > 0 && p.len > 0 then StartPos(p.len, p.rng) else 0;
            var plain := Crypt(k, r.cipher, frame[2 + start..2 + start + n]);
            var next := Receiver(digest, Inc32(r.id), if n > 0 && p.len > 0 then Advance(p.rng) else p.rng, r.cipher + n);
            Unpack(k, r, p, n, frame) ==
            if digest[..2] != frame[n + p.len + 2..] then Fail(WrongChecksum, r.(hash := p.hash, rng := p.rng))
            else if r.id == 1 && n < 2 then Fail(OutOfRange, next)
            else Frame(|frame|, if r.id == 1 then plain[2..] else plain, next)
  {
    hide Crypt, StartPos, Draw, Advance, MacKey, Inc32;
  }

  lemma UnpackDecides(k: Keys, r: Receiver, p: Padding, n: nat, frame: seq<byte>)
    requires |frame| == n + p.len + 4
    ensures !Unpack(k, r, p, n, frame).More?
  {
  }

  lemma ParseStable(k: Keys, r: Receiver, a: seq<byte>, b: seq<byte>)
    requires Reseeds(k.padding) && a <= b
    ensures if Parse(k, r, a).More? then Alike(Parse(k, r, a).state, r)
            else SameTurn(Alike, Parse(k, r, a), Parse(k, r, b))
  {
    hide Unpack, Xor16, Mask, Reseeds;
    if |a| > 4 {
      assert a[..2] == b[..2];
      var n := Xor16(FromLe16(a[..2]), Mask(r.hash));
      SameLength(k.padding, n, r.hash, r.hash, r.rng, r.rng);
      var p := k.padding(n, r.hash, r.rng);
      if n + p.len + 4 <= |a| {
        assert a[..4 + n + p.len] == b[..4 + n + p.len];
        UnpackDecides(k, r, p, n, a[..4 + n + p.len]);
      }
    }
  }

  /** Chain decoding is incremental, although a turn that must wait has already changed the receiver. */
  lemma ChainIncremental(k: Keys)
    requires Reseeds(k.padding)
    ensures Incremental(ParserOf(k), Alike)
  {
    var p := ParserOf(k);
    forall r, t, a | Alike(r, t) ensures SameTurn(Alike, p(r, a), p(t, a)) {
      ParseRespects(k, r, t, a);
    }
    forall r, a, b | a <= b
      ensures if p(r, a).More? then Alike(p(r, a).state, r) else SameTurn(Alike, p(r, a), p(r, b))
    {
      ParseStable(k, r, a, b);
    }
  }

  /**
   On any bytes at all, decoding a first part and then the rest is decoding the whole: the same output, the same
   bytes left over, the same error, and receivers alike. If the first part already fails, so does the whole.
   */
  lemma ChainSplitAnywhere(k: Keys, r: Receiver, a: seq<byte>, b: seq<byte>)
    requires Reseeds(k.padding)
    ensures SameRun(Alike, Joined(ParserOf(k), Loop(ParserOf(k), r, a), b), Loop(ParserOf(k), r, a + b))
  {
    hide Loop;
    ChainIncremental(k);
    SplitAnywhere(ParserOf(k), Alike, r, a, b);
  }

  // -------- a receiver in step with the sender recovers the payloads --------

  /** The receiver is where the sender is, up to what the next turn overwrites. */
  predicate InStep(r: Receiver, s: Sender) {
    AlikeHash(r.hash, s.hash) && r.id == s.id && r.cipher == s.cipher
  }

  /** What of a frame's payload reaches the application: frame number 1 carries a two-byte prefix. */
  function Visible(id: u32, data: seq<byte>): seq<byte>
    requires id == 1 ==> |data| >= 2
  {
    if id == 1 then data[2..] else data
  }

  predicate Sendable(id: u32, data: seq<byte>) {
    1 <= |data| <= 2800 && (id == 1 ==> |data| >= 2)
  }

  /** The offset of the payload behind the length field. */
  function Offset(p: Padding): nat {
    if p.len > 0 then StartPos(p.len, p.rng) else 0
  }

  lemma BodyHoldsData(k: Keys, p: Padding, drawn: nat, data: seq<byte>)
    requires data != []
    ensures var body := Body(k, p, drawn, data).0;
            Offset(p) + |data| <= |body| && body[Offset(p)..Offset(p) + |data|] == data
  {
  }

  lemma ThreeParts(head: seq<byte>, body: seq<byte>, sum: seq<byte>, from: nat, to: nat)
    requires |head| == 2 && from <= to <= |body|
    ensures var frame := head + body + sum;
            && frame[..2] == head && frame[..|body| + 2] == head + body && frame[|body| + 2..] == sum
            && frame[2 + from..2 + to] == body[from..to]
  {
  }

  lemma FrameParts(k: Keys, s: Sender, data: seq<byte>)
    requires 1 <= |data| < 0x1_0000
    ensures var n := |data|;
            var p := k.padding(n, s.hash, s.rng);
            var (frame, s') := Pack(k, s, data);
            && |frame| == n + p.len + 4 && Offset(p) <= p.len
            && frame[..2] == Le16(Xor16(n, Mask(s.hash)))
            && frame[2 + Offset(p)..2 + Offset(p) + n] == Crypt(k, s.cipher, data)
            && frame[n + p.len + 2..] == s'.hash[..2]
            && s'.hash == k.hmac(MacKey(k, s.id), frame[..n + p.len + 2])
  {
    hide Body, Crypt, StartPos, Xor16;
    var p := k.padding(|data|, s.hash, s.rng);
    var enc := Crypt(k, s.cipher, data);
    var body := Body(k, p, s.drawn, enc).0;
    BodyHoldsData(k, p, s.drawn, enc);
    ThreeParts(Le16(Xor16(|data|, Mask(s.hash))), body, Pack(k, s, data).1.hash[..2], Offset(p), Offset(p) + |data|);
  }

  lemma NoiseAround(k: Keys, p: Padding, drawn: nat, data: seq<byte>)
    ensures var body, off := Body(k, p, drawn, data).0, Offset(p);
            off <= p.len && body[..off] + body[off + |data|..] == Noise(k.random, drawn, p.len)
  {
    hide Noise, Draw, Advance;
    var noise, off := Noise(k.random, drawn, p.len), Offset(p);
    assert noise[..off] + noise[off..] == noise;
  }

  /** Different frame numbers are authenticated under different keys. */
  lemma KeyPerNumber(k: Keys, i: u32, j: u32)
    requires MacKey(k, i) == MacKey(k, j)
    ensures i == j
  {
    hide Le32;
    assert MacKey(k, i)[|k.userKey|..] == Le32(i) && MacKey(k, j)[|k.userKey|..] == Le32(j);
  }

  /**
   A frame, byte for byte: the payload's length, masked with two bytes of the last digest; the payload, each byte
   mixed with the key stream, somewhere within the padding; and the first two bytes of the digest of all that, keyed
   with the user's key and the four bytes of the frame number. And the sender after it.
   */
  lemma FrameShape(k: Keys, s: Sender, data: seq<byte>)
    requires |data| < 0x1_0000
    ensures var n := |data|;
            var p := k.padding(n, s.hash, s.rng);
            var (frame, s') := Pack(k, s, data);
            var off := if p.len > 0 then Draw(p.rng) % 8589934609 % p.len else 0;
            && |frame| == n + p.len + 4 && off <= p.len
            && frame[0] as int + 0x100 * frame[1] as int == Xor(n, s.hash[14] as int + 0x100 * s.hash[15] as int)
            && (forall i :: 0 <= i < n ==> frame[2 + off + i] as int == Xor(data[i], k.stream(s.cipher + i)))
            && frame[2..2 + off] + frame[2 + off + n..2 + n + p.len] == Noise(k.random, s.drawn, p.len)
            && frame[n + p.len + 2..] == s'.hash[..2]
            && s'.hash == k.hmac(k.userKey + Le32(s.id), frame[..n + p.len + 2])
            && s'.id == (s.id + 1) % 0x1_0000_0000 && s'.cipher == s.cipher + n && s'.drawn == s.drawn + p.len
            && s'.rng == if n > 0 && p.len > 0 then Advance(p.rng) else p.rng
  {
    hide Xor, Draw, Advance, Noise, Body, Le32, Le16, Mask, Crypt;
    HeadBytes(|data|, s.hash);
    var n, p := |data|, k.padding(|data|, s.hash, s.rng);
    var (frame, s') := Pack(k, s, data);
    var off, enc := Offset(p), Crypt(k, s.cipher, data);
    var body := Body(k, p, s.drawn, enc).0;
    var head := Le16(Xor16(n, Mask(s.hash)));
    NoiseAround(k, p, s.drawn, enc);
    RngAfter(k, p, s.drawn, enc);
    assert frame == head + body + s'.hash[..2];
    assert frame[2..2 + off] == body[..off] && frame[2 + off + n..2 + n + p.len] == body[off + n..];
    assert frame[..n + p.len + 2] == head + body;
    if n > 0 {
      BodyHoldsData(k, p, s.drawn, enc);
      forall i | 0 <= i < n ensures frame[2 + off + i] as int == Xor(data[i], k.stream(s.cipher + i)) {
        assert frame[2 + off + i] == body[off + i] == body[off..off + n][i] == enc[i];
        CryptAt(k, s.cipher, data, i);
      }
    }
  }

  lemma HeadBytes(n: u16, hash: Digest)
    ensures var head := Le16(Xor16(n, Mask(hash)));
            head[0] as int + 0x100 * head[1] as int == Xor(n, hash[14] as int + 0x100 * hash[15] as int)
  {
    assert hash[14..16][0] == hash[14] && hash[14..16][1] == hash[15];
  }

  lemma CryptAt(k: Keys, offset: nat, data: seq<byte>, i: nat)
    requires i < |data|
    ensures Crypt(k, offset, data)[i] as int == Xor(data[i], k.stream(offset + i))
  {
  }

  lemma RngAfter(k: Keys, p: Padding, drawn: nat, data: seq<byte>)
    ensures Body(k, p, drawn, data).1 == if data != [] && p.len > 0 then Advance(p.rng) else p.rng
  {
    hide Noise, Draw, Advance;
  }

  lemma UnpackFrame(k: Keys, r: Receiver, p: Padding, data: seq<byte>, frame: seq<byte>)
    requires |data| + p.len + 4 == |frame| && Sendable(r.id, data) && Offset(p) <= p.len
    requires frame[2 + Offset(p)..2 + Offset(p) + |data|] == Crypt(k, r.cipher, data)
    requires frame[|data| + p.len + 2..] == k.hmac(MacKey(k, r.id), frame[..|data| + p.len + 2])[..2]
    ensures Unpack(k, r, p, |data|, frame) ==
            Frame(|frame|, Visible(r.id, data),
                  Receiver(k.hmac(MacKey(k, r.id), frame[..|data| + p.len + 2]), Inc32(r.id),
                           if p.len > 0 then Advance(p.rng) else p.rng, r.cipher + |data|))
  {
    hide Crypt, Draw, Advance, MacKey, Inc32, StartPos;
    CryptTwice(k, r.cipher, data);
  }

  /** From the first bytes of a frame a receiver in step knows the lengths of its payload and padding. */
  lemma LengthsKnown(k: Keys, s: Sender, r: Receiver, data: seq<byte>, a: seq<byte>)
    requires Reseeds(k.padding) && FitsWindow(k.padding)
    requires Sendable(s.id, data) && InStep(r, s)
    requires |a| > 4 && a[..2] == Le16(Xor16(|data|, Mask(s.hash)))
    ensures var n := Xor16(FromLe16(a[..2]), Mask(r.hash));
            n == |data| && n + k.padding(n, r.hash, r.rng).len < 4096
  {
    hide Xor16, Mask;
    AlikeMask(r.hash, s.hash);
    Xor16Involutive(|data|, Mask(s.hash));
  }

  /**
   A whole frame, followed by anything, is decoded to its payload by every receiver in step, wherever
   earlier turns left that receiver's digest prefix and generator. Afterwards the digests are equal, and so
   are the generators if they were before or if the frame re-seeds them.
   */
  lemma FrameParses(k: Keys, s: Sender, r: Receiver, data: seq<byte>, tail: seq<byte>)
    requires Reseeds(k.padding) && FitsWindow(k.padding)
    requires Sendable(s.id, data) && InStep(r, s)
    ensures var (frame, s') := Pack(k, s, data);
            var turn := Parse(k, r, frame + tail);
            && turn.Frame? && turn.size == |frame| && turn.payload == Visible(s.id, data)
            && InStep(turn.state, s') && turn.state.hash == s'.hash
            && (r.rng == s.rng || Paces(k.padding, |data|) ==> turn.state.rng == s'.rng)
  {
    hide Crypt, Xor16, Unpack, Mask, Advance, Draw, StartPos, Paces, Reseeds, FitsWindow;
    var n := |data|;
    var frame := Pack(k, s, data).0;
    SameLength(k.padding, n, r.hash, s.hash, r.rng, s.rng);
    FrameParts(k, s, data);
    UnpackFrame(k, r, k.padding(n, r.hash, r.rng), data, frame);
    assert (frame + tail)[..2] == frame[..2] && (frame + tail)[..|frame|] == frame;
    LengthsKnown(k, s, r, data, frame + tail);
  }

  /** A receiver in step waits on part of a frame, stays in step, and keeps its generator unless the frame re-seeds it. */
  lemma PartWaits(k: Keys, s: Sender, r: Receiver, data: seq<byte>, a: seq<byte>)
    requires Reseeds(k.padding) && FitsWindow(k.padding)
    requires Sendable(s.id, data) && InStep(r, s)
    requires a < Pack(k, s, data).0
    ensures var turn := Parse(k, r, a);
            turn.More? && InStep(turn.state, s) && (turn.state.rng == r.rng || Paces(k.padding, |data|))
  {
    hide Crypt, Xor16, Mask, Advance, Draw, StartPos, Paces, Reseeds, FitsWindow, Unpack;
    if |a| > 4 {
      SameLength(k.padding, |data|, r.hash, s.hash, r.rng, s.rng);
      FrameParts(k, s, data);
      assert a[..2] == Pack(k, s, data).0[..2];
      LengthsKnown(k, s, r, data, a);
    }
  }

  /** Frames for a list of payloads, and the sender after them. */
  function PackAll(k: Keys, s: Sender, payloads: seq<seq<byte>>): (seq<byte>, Sender)
    decreases |payloads|
  {
    if payloads == [] then ([], s)
    else
      var (frame, s1) := Pack(k, s, payloads[0]);
      var (frames, s2) := PackAll(k, s1, payloads[1..]);
      (frame + frames, s2)
  }

  predicate AllSendable(id: u32, payloads: seq<seq<byte>>)
    decreases |payloads|
  {
    payloads == [] || (Sendable(id, payloads[0]) && AllSendable(Inc32(id), payloads[1..]))
  }

  /** What the application sees of a list of payloads. */
  function Delivered(id: u32, payloads: seq<seq<byte>>): seq<byte>
    requires AllSendable(id, payloads)
    decreases |payloads|
  {
    if payloads == [] then [] else Visible(id, payloads[0]) + Delivered(Inc32(id), payloads[1..])
  }

  /** The generators will agree after these payloads: they do already, or one of the payloads re-seeds them. */
  ghost predicate Settles(k: Keys, s: Sender, r: Receiver, payloads: seq<seq<byte>>) {
    r.rng == s.rng || exists d :: d in payloads && Paces(k.padding, |d|)
  }

  /** Everything about a receiver after some payloads is as at the sender, the generator once it has been re-seeded. */
  ghost predicate Abreast(k: Keys, s: Sender, r: Receiver, payloads: seq<seq<byte>>, r': Receiver, s': Sender) {
    && InStep(r', s')
    && (payloads != [] || r.hash == s.hash ==> r'.hash == s'.hash)
    && (Settles(k, s, r, payloads) ==> r'.rng == s'.rng)
  }

  /**
   Where a receiver stands in the middle of a stream: `rest` has arrived of the frames still to be decoded,
   which are those of `left`, and is not yet a whole frame.
   */
  ghost predicate Midway(k: Keys, s: Sender, r: Receiver, left: seq<seq<byte>>, rest: seq<byte>, more: seq<byte>) {
    && AllSendable(s.id, left) && InStep(r, s)
    && rest + more == PackAll(k, s, left).0
    && (left != [] ==> |rest| < |Pack(k, s, left[0]).0|)
  }

  lemma Numbered(k: Keys, s: Sender, data: seq<byte>)
    ensures Pack(k, s, data).1.id == Inc32(s.id)
  {
  }

  /** Decoding the next part of a stream moves the receiver on to a later point of it. */
  lemma {:induction false} PartDecodes(k: Keys, s: Sender, r: Receiver, payloads: seq<seq<byte>>, a: seq<byte>, more: seq<byte>)
    returns (s1: Sender, left: seq<seq<byte>>)
    requires Reseeds(k.padding) && FitsWindow(k.padding)
    requires AllSendable(s.id, payloads) && InStep(r, s) && a + more == PackAll(k, s, payloads).0
    ensures var run := Loop(ParserOf(k), r, a);
            && run.error == None && Midway(k, s1, run.state, left, run.rest, more)
            && PackAll(k, s1, left).1 == PackAll(k, s, payloads).1
            && Delivered(s.id, payloads) == run.out + Delivered(s1.id, left)
            && (left == [] && (payloads != [] || r.hash == s.hash) ==> run.state.hash == s1.hash)
            && (Settles(k, s, r, payloads) ==> Settles(k, s1, run.state, left))
    decreases |payloads|
  {
    hide Parse, Pack, Paces, Reseeds, FitsWindow;
    s1, left := s, payloads;
    assert [] + Delivered(s.id, payloads) == Delivered(s.id, payloads);
    ParserIsParse(k, r, a);
    if payloads == [] {
      ShortWaits(k, r, a);
    } else {
      var (frame, s2) := Pack(k, s, payloads[0]);
      var frames := PackAll(k, s2, payloads[1..]).0;
      assert a + more == frame + frames && s2.id == Inc32(s.id) by { Numbered(k, s, payloads[0]); }
      if |a| < |frame| {
        assert a == (frame + frames)[..|a|];
        PartWaits(k, s, r, payloads[0], a);
        assert payloads[0] in payloads;
      } else {
        var tail := a[|frame|..];
        assert a == frame + tail && tail + more == frames by {
          assert a[..|frame|] == (frame + frames)[..|frame|];
          assert (a + more)[|frame|..] == (frame + frames)[|frame|..];
        }
        FrameParses(k, s, r, payloads[0], tail);
        var turn := Parse(k, r, a);
        s1, left := PartDecodes(k, s2, turn.state, payloads[1..], tail, more);
        SettlesOn(k, s, r, payloads, s2, turn.state);
        assert Visible(s.id, payloads[0]) + (Loop(ParserOf(k), turn.state, tail).out + Delivered(s1.id, left))
            == (Visible(s.id, payloads[0]) + Loop(ParserOf(k), turn.state, tail).out) + Delivered(s1.id, left);
      }
    }
  }

  lemma SettlesOn(k: Keys, s: Sender, r: Receiver, payloads: seq<seq<byte>>, s': Sender, r': Receiver)
    requires payloads != [] && (r.rng == s.rng || Paces(k.padding, |payloads[0]|) ==> r'.rng == s'.rng)
    ensures Settles(k, s, r, payloads) ==> Settles(k, s', r', payloads[1..])
  {
    hide Paces;
    if r'.rng != s'.rng && Settles(k, s, r, payloads) {
      var d :| d in payloads && Paces(k.padding, |d|);
      assert d in payloads[1..];
    }
  }

  /** All the frames at once. */
  lemma StreamDecodes(k: Keys, s: Sender, r: Receiver, payloads: seq<seq<byte>>)
    requires Reseeds(k.padding) && FitsWindow(k.padding)
    requires AllSendable(s.id, payloads) && InStep(r, s)
    ensures var (bytes, s') := PackAll(k, s, payloads);
            var run := Loop(ParserOf(k), r, bytes);
            && run.out == Delivered(s.id, payloads) && run.rest == [] && run.error == None
            && Abreast(k, s, r, payloads, run.state, s')
  {
    hide Loop, Pack, Parse, Paces, Reseeds, FitsWindow;
    var bytes := PackAll(k, s, payloads).0;
    assert bytes + [] == bytes;
    var s1, left := PartDecodes(k, s, r, payloads, bytes, []);
    NothingLeft(k, s1, Loop(ParserOf(k), r, bytes).state, left, Loop(ParserOf(k), r, bytes).rest);
  }

  lemma NothingLeft(k: Keys, s: Sender, r: Receiver, left: seq<seq<byte>>, rest: seq<byte>)
    requires Midway(k, s, r, left, rest, [])
    ensures left == [] && rest == []
  {
    hide Pack;
    assert rest + [] == rest;
  }

  lemma {:induction false} FeedDecodes(k: Keys, s: Sender, run: Run<Receiver>, left: seq<seq<byte>>, pieces: seq<seq<byte>>)
    requires Reseeds(k.padding) && FitsWindow(k.padding)
    requires run.error == None && Midway(k, s, run.state, left, run.rest, Flatten(pieces))
    ensures var end := Feed(ParserOf(k), run, pieces);
            && end.out == run.out + Delivered(s.id, left) && end.rest == [] && end.error == None
            && Abreast(k, s, run.state, left, end.state, PackAll(k, s, left).1)
    decreases |pieces|
  {
    hide Loop, Pack, Parse, PackAll, Delivered, Paces, Reseeds, FitsWindow;
    if pieces == [] {
      NothingLeft(k, s, run.state, left, run.rest);
      NoFrames(k, s);
    } else {
      var a, more := run.rest + pieces[0], Flatten(pieces[1..]);
      assert a + more == run.rest + Flatten(pieces);
      var s1, next := PartDecodes(k, s, run.state, left, a, more);
      var step := Loop(ParserOf(k), run.state, a);
      var joined := Joined(ParserOf(k), run, pieces[0]);
      assert joined == Then(run.out, step);
      FeedDecodes(k, s1, joined, next, pieces[1..]);
      assert run.out + (step.out + Delivered(s1.id, next)) == (run.out + step.out) + Delivered(s1.id, next);
    }
  }

  lemma NoFrames(k: Keys, s: Sender)
    ensures PackAll(k, s, []) == ([], s) && Delivered(s.id, []) == []
  {
  }

  /**
   The chain protocols round-trip: however the peer's bytes are cut up on the way, the payloads come out in
   order, complete, with nothing left over, and the receiver has caught up with the sender: digest, frame number,
   cipher position, and the generator from the first frame on that re-seeds it.
   */
  lemma ChainRoundTrip(k: Keys, s: Sender, r: Receiver, payloads: seq<seq<byte>>, pieces: seq<seq<byte>>)
    requires Reseeds(k.padding) && FitsWindow(k.padding)
    requires AllSendable(s.id, payloads) && InStep(r, s)
    ensures Incremental(ParserOf(k), Alike)
    ensures Flatten(pieces) == PackAll(k, s, payloads).0 ==>
              var run := Feed(ParserOf(k), Start(r), pieces);
              && run.out == Delivered(s.id, payloads) && run.rest == [] && run.error == None
              && Abreast(k, s, r, payloads, run.state, PackAll(k, s, payloads).1)
  {
    hide Feed, Parse, Paces, Reseeds, FitsWindow;
    ChainIncremental(k);
    if Flatten(pieces) == PackAll(k, s, payloads).0 {
      assert [] + Flatten(pieces) == Flatten(pieces);
      FeedDecodes(k, s, Start(r), payloads, pieces);
    }
  }

  // -------- the frame counter wraps --------

  /** Frames until the counter next reads 1. */
  function UntilOne(id: u32): nat {
    if id <= 1 then 1 - id else 0x1_0000_0001 - id
  }

  lemma {:induction false} DeliveredBefore(id: u32, payloads: seq<seq<byte>>)
    requires AllSendable(id, payloads)
    ensures |payloads| <= UntilOne(id) ==> Delivered(id, payloads) == Flatten(payloads)
    ensures |payloads| > UntilOne(id) ==> |Delivered(id, payloads)| < |Flatten(payloads)|
    ensures |Delivered(id, payloads)| <= |Flatten(payloads)|
    decreases |payloads|
  {
    if payloads != [] {
      DeliveredBefore(Inc32(id), payloads[1..]);
    }
  }

  /**
   A connection starts both counters at 1, and exactly the streams of at most 2^32 frames arrive with only
   their first two bytes removed: the 32-bit counter then reads 1 again, and the next frame loses two more.
   */
  lemma OnlyFirstFrameIsCut(payloads: seq<seq<byte>>)
    requires payloads != [] && AllSendable(1, payloads)
    ensures |Flatten(payloads)| >= 2
    ensures Delivered(1, payloads) == Flatten(payloads)[2..] <==> |payloads| <= 0x1_0000_0000
  {
    DeliveredBefore(2, payloads[1..]);
    assert Inc32(1) == 2 && Flatten(payloads) == payloads[0] + Flatten(payloads[1..]);
    assert Flatten(payloads)[2..] == payloads[0][2..] + Flatten(payloads[1..]);
  }

  // -------- the endpoint as the source runs it --------

  /** Which of the two padding rules an endpoint uses. */
  datatype Variant = ChainA | ChainB(sizes: SizeTable)

  function MethodOf(v: Variant): Method {
    match v
    case ChainA => PaddingA
    case ChainB(t) => MethodB(t)
  }

  /** Both variants satisfy what the framing relies on. */
  lemma VariantContract(v: Variant)
    ensures Reseeds(MethodOf(v)) && FitsWindow(MethodOf(v))
    ensures forall n: nat :: n < 1440 ==> Paces(MethodOf(v), n)
  {
    hide Paces, Reseeds, FitsWindow;
    match v
    case ChainA => PaddingAContract();
    case ChainB(t) => PaddingBContract(t);
  }

  /** The two protocols, by name. */
  datatype Protocol = AuthChainA | AuthChainB

  /** The rule a new connection gets, and the state its receiving generator is left in. */
  function VariantFor(protocol: Protocol, key: seq<byte>, overhead: nat): Option<(Variant, Rng)> {
    TableIsSizeTable(key, overhead);
    if protocol == AuthChainA then Some((ChainA, Rng(0, 0)))
    else
      match TableOf(key, overhead)
      case None => None
      case Some((sizes, rng)) => Some((ChainB(sizes), rng))
  }

  /** Each protocol pads by its own rule; chain_b by the sizes derived from the key. */
  lemma RuleOfProtocol(key: seq<byte>, overhead: nat, n: nat, hash: Digest, rng: Rng)
    ensures VariantFor(AuthChainA, key, overhead) == Some((ChainA, Rng(0, 0)))
    ensures MethodOf(ChainA)(n, hash, rng) == PaddingA(n, hash, rng)
    ensures VariantFor(AuthChainB, key, overhead).Some? <==> TableOf(key, overhead).Some?
    ensures TableOf(key, overhead).Some? ==>
              var (variant, after) := VariantFor(AuthChainB, key, overhead).value;
              && variant.ChainB? && (variant.sizes, after) == TableOf(key, overhead).value
              && MethodOf(variant)(n, hash, rng) == PaddingB(variant.sizes, n, hash, rng)
  {
    hide TableOf, PaddingA, PaddingB;
  }

  /**
   With a supported method, chain_a connections can always be set up, and chain_b connections exactly when the
   method is a stream cipher: without one there is no key, and deriving the table fails.
   */
  lemma ConnectsIff(md5: seq<byte> -> Digest, how: string, password: seq<byte>, protocol: Protocol, overhead: nat)
    requires KeyFor(md5, how, password).Some?
    ensures VariantFor(protocol, KeyFor(md5, how, password).value, overhead).Some? <==> protocol == AuthChainA || how in STREAM_KEY_SIZES
  {
    hide TableOf;
    LongKeys(md5, how, password);
    TableIsSizeTable(KeyFor(md5, how, password).value, overhead);
  }

  /** The default method has no key, and with it no chain_b connection can be set up. */
  lemma NoneCannotConnect(md5: seq<byte> -> Digest, password: seq<byte>, overhead: nat)
    ensures KeyFor(md5, "none", password) == Some([])
    ensures VariantFor(AuthChainB, [], overhead) == None
  {
    NoKeyNoTable(overhead);
  }

  lemma {:induction false} CryptJoins(k: Keys, offset: nat, a: seq<byte>, b: seq<byte>)
    ensures Crypt(k, offset, a + b) == Crypt(k, offset, a) + Crypt(k, offset + |a|, b)
  {
    var x, y := Crypt(k, offset, a + b), Crypt(k, offset, a) + Crypt(k, offset + |a|, b);
    forall i | 0 <= i < |x| ensures x[i] == y[i] {
      if i >= |a| {
        assert (a + b)[i] == b[i - |a|] && offset + |a| + (i - |a|) == offset + i;
      }
    }
  }

  lemma {:induction false} ChunksSendable(id: u32, b: seq<byte>)
    requires |Chunks(b, 2800)| <= UntilOne(id)
    ensures AllSendable(id, Chunks(b, 2800))
    decreases |b|
  {
    if |b| > 2800 {
      ChunksSendable(Inc32(id), b[2800..]);
    }
  }

  /**
   With either padding rule, whatever one call sends after the first frame comes out at the peer byte for
   byte, in any segmentation, as long as the frame counter does not reach 1 again on the way.
   */
  lemma EncodedBytesArrive(v: Variant, k: Keys, s: Sender, r: Receiver, b: seq<byte>, pieces: seq<seq<byte>>)
    requires k.padding == MethodOf(v) && InStep(r, s) && |Chunks(b, 2800)| <= UntilOne(s.id)
    ensures Flatten(pieces) == PackAll(k, s, Chunks(b, 2800)).0 ==>
              var run := Feed(ParserOf(k), Start(r), pieces);
              && run.out == b && run.rest == [] && run.error == None
              && Abreast(k, s, r, Chunks(b, 2800), run.state, PackAll(k, s, Chunks(b, 2800)).1)
  {
    VariantContract(v);
    ChunksSendable(s.id, b);
    DeliveredBefore(s.id, Chunks(b, 2800));
    ChainRoundTrip(k, s, r, Chunks(b, 2800), pieces);
  }

  /** A packing result that comes after some bytes. */
  ghost function After(buf: seq<byte>, packed: (seq<byte>, Sender)): (seq<byte>, Sender) {
    (buf + packed.0, packed.1)
  }

  lemma AfterUnits(k: Keys, buf: seq<byte>, s: Sender, packed: (seq<byte>, Sender))
    ensures After([], packed) == packed && After(buf, PackAll(k, s, [])) == (buf, s)
  {
    assert [] + packed.0 == packed.0 && buf + [] == buf;
  }

  lemma PackAllStep(k: Keys, s: Sender, buf: seq<byte>, first: seq<byte>, rest: seq<seq<byte>>)
    ensures var (frame, s1) := Pack(k, s, first);
            After(buf, PackAll(k, s, [first] + rest)) == After(buf + frame, PackAll(k, s1, rest))
  {
    hide Pack;
    var (frame, s1) := Pack(k, s, first);
    assert ([first] + rest)[1..] == rest;
    assert buf + (frame + PackAll(k, s1, rest).0) == (buf + frame) + PackAll(k, s1, rest).0;
  }

  /** A byte string encrypted in place between two positions. */
  function CryptIn(k: Keys, offset: nat, b: seq<byte>, lo: nat, hi: nat): seq<byte>
    requires lo <= hi <= |b|
  {
    b[..lo] + Crypt(k, offset, b[lo..hi]) + b[hi..]
  }

  lemma Splice(k: Keys, offset: nat, all: seq<byte>, i: nat, j: nat, cur: seq<byte>)
    requires i <= j <= |all| && cur == Crypt(k, offset, all[..i]) + all[i..]
    ensures |cur| == |all| && cur[i..j] == all[i..j]
    ensures CryptIn(k, offset + i, cur, i, j) == Crypt(k, offset, all[..j]) + all[j..]
  {
    hide Crypt;
    CryptJoins(k, offset, all[..i], all[i..j]);
    assert all[..i] + all[i..j] == all[..j];
    assert cur[i..j] == all[i..j];
  }

  class Endpoint {
    const variant: Variant
    const k: Keys
    var rawTrans: bool
    var lastClientHash: array<byte>
    var lastServerHash: array<byte>
    const randomClient: XorShift128Plus
    const randomServer: XorShift128Plus
    var encrypter: nat
    var decrypter: nat
    var packID: u32
    var recvID: u32
    var drawn: nat

    /** A connection as set up: both frame counters at 1, both digests and the cipher already agreed. */
    constructor (variant: Variant, k: Keys, clientHash: Digest, serverHash: Digest, randomServer: XorShift128Plus)
      requires k.padding == MethodOf(variant)
      ensures Valid() && fresh(lastClientHash) && fresh(lastServerHash) && fresh(randomClient)
      ensures this.k == k && this.variant == variant && this.randomServer == randomServer && !rawTrans
      ensures Sending() == Sender(clientHash, 1, Rng(0, 0), 0, 0)
      ensures Receiving() == Receiver(serverHash, 1, randomServer.State(), 0)
    {
      this.variant, this.k := variant, k;
      rawTrans, encrypter, decrypter, packID, recvID, drawn := false, 0, 0, 1, 1, 0;
      var client := NewDigest(clientHash);
      var server := NewDigest(serverHash);
      lastClientHash, lastServerHash := client, server;
      randomClient := new XorShift128Plus();
      this.randomServer := randomServer;
    }

    ghost predicate Valid()
      reads this
    {
      && lastClientHash.Length == 16 && lastServerHash.Length == 16 && lastClientHash != lastServerHash
      && randomClient != randomServer
      && k.padding == MethodOf(variant)
    }

    ghost function Sending(): Sender
      requires Valid()
      reads this, lastClientHash, randomClient
    {
      Sender(lastClientHash[..], packID, randomClient.State(), encrypter, drawn)
    }

    ghost function Receiving(): Receiver
      requires Valid()
      reads this, lastServerHash, randomServer
    {
      Receiver(lastServerHash[..], recvID, randomServer.State(), decrypter)
    }

    /** The padding length, through whichever rule this endpoint was built with. */
    method RandDataLength(length: nat, lastHash: array<byte>, random: XorShift128Plus) returns (pad: nat)
      requires Valid() && lastHash.Length == 16
      modifies lastHash, random
      ensures Padding(pad, lastHash[..], random.State()) == k.padding(length, old(lastHash[..]), old(random.State()))
    {
      match variant
      case ChainA =>
        pad := GetRandLengthA(length, lastHash, random);
      case ChainB(t) =>
        pad := GetRandLengthB(t, length, lastHash, random);
    }

    /** Draws a start position, unless there is no padding to start in. */
    method GetRandStartPos(length: nat, random: XorShift128Plus) returns (pos: nat)
      modifies random
      ensures pos == StartPos(length, old(random.State()))
      ensures length > 0 ==> pos == Draw(old(random.State())) % 8589934609 % length
      ensures random.State() == if length > 0 then Advance(old(random.State())) else old(random.State())
    {
      if length == 0 {
        return 0;
      }
      var v := random.Next();
      pos := v % 8589934609 % length;
    }

    method AppendRandBytes(n: nat) returns (b: seq<byte>)
      modifies this`drawn
      ensures b == Noise(k.random, old(drawn), n) && drawn == old(drawn) + n
    {
      b := Noise(k.random, drawn, n);
      drawn := drawn + n;
    }

    method PutMixedRandDataAndData(data: seq<byte>) returns (body: seq<byte>)
      requires Valid()
      modifies this`drawn, lastClientHash, randomClient
      ensures Valid()
      ensures var p := k.padding(|data|, old(lastClientHash[..]), old(randomClient.State()));
              && (body, randomClient.State()) == Body(k, p, old(drawn), data)
              && lastClientHash[..] == p.hash && drawn == old(drawn) + p.len
    {
      hide Advance, Draw, StartPos, Noise, MethodOf;
      var pad := RandDataLength(|data|, lastClientHash, randomClient);
      if |data| == 0 {
        body := AppendRandBytes(pad);
        return;
      }
      if pad > 0 {
        var start := GetRandStartPos(pad, randomClient);
        var before := AppendRandBytes(start);
        var after := AppendRandBytes(pad - start);
        NoiseSplits(k, old(drawn), start, pad);
        body := before + data + after;
        return;
      }
      body := data;
    }

    /** Appends one frame; the caller's bytes are encrypted in place. */
    method PackData(b: array<byte>, lo: nat, hi: nat) returns (frame: seq<byte>)
      requires Valid() && lo <= hi <= b.Length && b != lastClientHash && b != lastServerHash
      modifies this, lastClientHash, randomClient, b
      ensures Valid() && fresh(lastClientHash) && ReceiverUntouched()
      ensures (frame, Sending()) == Pack(k, old(Sending()), old(b[..])[lo..hi]) && encrypter == old(encrypter) + (hi - lo)
      ensures b[..] == CryptIn(k, old(encrypter), old(b[..]), lo, hi)
    {
      hide Body, Crypt, Xor16, MethodOf, MacKey;
      XorKeyStream(b, lo, hi);
      var length := Xor16((hi - lo) % 0x1_0000, FromLe16(lastClientHash[14..16]));
      assert lastClientHash[14..16] == lastClientHash[..][14..16];
      var key := MacKey(k, packID);
      packID := Inc32(packID);
      assert b[lo..hi] == Crypt(k, old(encrypter), old(b[..])[lo..hi]);
      var body := PutMixedRandDataAndData(b[lo..hi]);
      var packet := Le16(length) + body;
      var digest := k.hmac(key, packet);
      lastClientHash := NewDigest(digest);
      frame := packet + digest[..2];
    }

    method XorKeyStream(b: array<byte>, lo: nat, hi: nat)
      requires lo <= hi <= b.Length
      modifies this`encrypter, b
      ensures encrypter == old(encrypter) + (hi - lo)
      ensures b[..] == CryptIn(k, old(encrypter), old(b[..]), lo, hi)
    {
      var enc := Crypt(k, encrypter, b[..][lo..hi]);
      forall i | lo <= i < hi {
        b[i] := enc[i - lo];
      }
      encrypter := encrypter + (hi - lo);
    }

    /** How far sending `all` has got: the first i bytes are encrypted in place and packed into buf. */
    ghost predicate Sent(b: array<byte>, all: seq<byte>, e0: nat, goal: (seq<byte>, Sender), buf: seq<byte>, i: nat)
      requires Valid()
      reads this, b, lastClientHash, randomClient
    {
      && i <= |all| && encrypter == e0 + i && b[..] == Crypt(k, e0, all[..i]) + all[i..]
      && After(buf, PackAll(k, Sending(), Chunks(all[i..], 2800))) == goal
    }

    method SendChunk(b: array<byte>, i: nat, j: nat, buf: seq<byte>,
                     ghost all: seq<byte>, ghost e0: nat, ghost goal: (seq<byte>, Sender))
      returns (more: seq<byte>)
      requires Valid() && b != lastClientHash && b != lastServerHash
      requires Sent(b, all, e0, goal, buf, i) && i < j <= |all| == b.Length
      requires if |all| - i > 2800 then j == i + 2800 else j == |all|
      modifies this, lastClientHash, randomClient, b
      ensures Valid() && fresh(lastClientHash) && ReceiverUntouched()
      ensures Sent(b, all, e0, goal, more, j)
    {
      hide Pack, PackAll, Crypt, CryptIn, MethodOf, Chunks, After;
      Splice(k, e0, all, i, j, b[..]);
      ChunksAt(all, i, 2800);
      assert all[i..j] == if j == |all| then all[i..] else all[i..i + 2800];
      PackAllStep(k, Sending(), buf, all[i..j], if j == |all| then [] else Chunks(all[j..], 2800));
      var frame := PackData(b, i, j);
      ChunksAt(all, j, 2800);
      more := buf + frame;
    }

    twostate predicate ReceiverUntouched()
      reads this
    {
      lastServerHash == old(lastServerHash) && rawTrans == old(rawTrans) && decrypter == old(decrypter) && recvID == old(recvID)
    }

    /** Sends a byte string once the header is out. */
    method Encode(b: array<byte>) returns (buf: seq<byte>)
      requires Valid() && b != lastClientHash && b != lastServerHash
      modifies this, lastClientHash, randomClient, b
      ensures Valid() && ReceiverUntouched()
      ensures (buf, Sending()) == PackAll(k, old(Sending()), Chunks(old(b[..]), 2800))
      ensures b[..] == Crypt(k, old(encrypter), old(b[..]))
    {
      hide Pack, PackAll, MethodOf, Chunks, After;
      ghost var all, e0 := old(b[..]), old(encrypter);
      ghost var goal := PackAll(k, Sending(), Chunks(all, 2800));
      buf := [];
      var i := 0;
      assert all[0..] == all;
      AfterUnits(k, [], Sending(), goal);
      while b.Length - i > 2800
        invariant i <= b.Length && Valid() && ReceiverUntouched() && b != lastClientHash
        invariant lastClientHash == old(lastClientHash) || fresh(lastClientHash)
        invariant Sent(b, all, e0, goal, buf, i)
      {
        buf := SendChunk(b, i, i + 2800, buf, all, e0, goal);
        i := i + 2800;
      }
      if b.Length - i > 0 {
        buf := SendChunk(b, i, b.Length, buf, all, e0, goal);
        i := b.Length;
      }
      assert all[..i] == all;
      ChunksAt(all, i, 2800);
      AfterUnits(k, buf, Sending(), goal);
    }

    /** Where the payload of a received frame starts. */
    method PayloadAt(n: nat, pad: nat) returns (pos: nat)
      modifies randomServer
      ensures pos == 2 + if n > 0 && pad > 0 then StartPos(pad, old(randomServer.State())) else 0
      ensures randomServer.State() == if n > 0 && pad > 0 then Advance(old(randomServer.State())) else old(randomServer.State())
    {
      pos := 2;
      if n > 0 && pad > 0 {
        var start := GetRandStartPos(pad, randomServer);
        pos := pos + start;
      }
    }

    /** Authenticates and decrypts a frame known to be whole. */
    method OpenFrame(n: nat, pad: nat, frame: seq<byte>) returns (turn: Turn<()>)
      requires Valid() && |frame| == n + pad + 4
      modifies this, randomServer
      ensures Valid() && SenderUntouched()
      ensures lastServerHash == old(lastServerHash) || fresh(lastServerHash)
      ensures var p := Padding(pad, old(lastServerHash[..]), old(randomServer.State()));
              Unpack(k, old(Receiving()), p, n, frame) == WithState(turn, Receiving())
    {
      hide Advance, Draw, Crypt, MethodOf, MacKey, StartPos, Inc32, Unpack;
      UnpackCases(k, Receiving(), Padding(pad, lastServerHash[..], randomServer.State()), n, frame);
      var serverHash := k.hmac(MacKey(k, recvID), frame[..n + pad + 2]);
      if serverHash[..2] != frame[n + pad + 2..] {
        return Fail(WrongChecksum, ());
      }
      lastServerHash := NewDigest(serverHash);
      var pos := PayloadAt(n, pad);
      var plain := Crypt(k, decrypter, frame[pos..pos + n]);
      decrypter := decrypter + n;
      if recvID == 1 && n < 2 {
        turn := Fail(OutOfRange, ());
      } else {
        turn := Frame(|frame|, if recvID == 1 then plain[2..] else plain, ());
      }
      recvID := Inc32(recvID);
    }

    twostate predicate SenderUntouched()
      reads this
    {
      && lastClientHash == old(lastClientHash) && encrypter == old(encrypter)
      && packID == old(packID) && drawn == old(drawn) && rawTrans == old(rawTrans)
    }

    /** One turn of the decoding loop. */
    method TakeFrame(src: seq<byte>) returns (turn: Turn<()>)
      requires Valid() && |src| > 4
      modifies this, lastServerHash, randomServer
      ensures Valid() && SenderUntouched()
      ensures lastServerHash == old(lastServerHash) || fresh(lastServerHash)
      ensures Parse(k, old(Receiving()), src) == WithState(turn, Receiving())
    {
      hide Unpack, Xor16, MethodOf;
      assert lastServerHash[14..16] == lastServerHash[..][14..16];
      var n := Xor16(FromLe16(src[..2]), FromLe16(lastServerHash[14..16]));
      var pad := RandDataLength(n, lastServerHash, randomServer);
      if n + pad >= 4096 {
        return Fail(WrongLength, ());
      }
      if 4 + n + pad > |src| {
        return More(());
      }
      UnpackIgnoresPrefix(k, Receiving(), old(Receiving()), Padding(pad, lastServerHash[..], randomServer.State()), n, src[..4 + n + pad]);
      turn := OpenFrame(n, pad, src[..4 + n + pad]);
    }

    /** Decodes what has arrived; the bytes not used are handed back. */
    method Decode(src: seq<byte>) returns (dst: seq<byte>, rest: seq<byte>, err: Option<Error>)
      requires Valid()
      modifies this, lastServerHash, randomServer
      ensures Valid() && lastClientHash == old(lastClientHash)
      ensures encrypter == old(encrypter) && packID == old(packID) && drawn == old(drawn)
      ensures old(rawTrans) ==> dst == src && rest == [] && err == None && Receiving() == old(Receiving())
      ensures err.Some? ==> rest == []
      ensures !old(rawTrans) ==> Run(Receiving(), dst, rest, err) == Loop(ParserOf(k), old(Receiving()), src)
      ensures rawTrans == (old(rawTrans) || (err.Some? && err != Some(OutOfRange)))
    {
      if rawTrans {
        return src, [], None;
      }
      hide Parse, MethodOf, ParserOf, Loop;
      dst, rest, err := [], src, None;
      ghost var p := ParserOf(k);
      while |rest| > 4
        invariant Valid() && SenderUntouched()
        invariant lastServerHash == old(lastServerHash) || fresh(lastServerHash)
        invariant Then(dst, Loop(p, Receiving(), rest)) == Loop(p, old(Receiving()), src)
        decreases |rest|
      {
        ParserIsParse(k, Receiving(), rest);
        LoopTurn(p, Receiving(), rest);
        var turn := TakeFrame(rest);
        match turn
        case More(_) =>
          return;
        case Fail(e, _) =>
          rawTrans := e != OutOfRange;
          return dst, [], Some(e);
        case Frame(n, payload, _) =>
          ThenJoins(dst, payload, Loop(p, Receiving(), rest[n..]));
          dst := dst + payload;
          rest := rest[n..];
      }
      ShortWaits(k, Receiving(), rest);
    }
  }

  /**
   Sets up a connection: chain_a always can; chain_b derives its table from the key on every connection and
   runs off the end of a key that is too short.
   */
  method StreamConn(protocol: Protocol, key: array<byte>, overhead: nat, shared: Keys, clientHash: Digest, serverHash: Digest)
    returns (e: Endpoint?)
    ensures e != null <==> VariantFor(protocol, key[..], overhead).Some?
    ensures e != null ==>
              && fresh(e) && fresh(e.lastClientHash) && fresh(e.lastServerHash) && fresh(e.randomClient) && fresh(e.randomServer)
              && e.Valid() && e.variant == VariantFor(protocol, key[..], overhead).value.0
              && e.k == shared.(padding := MethodOf(e.variant))
              && e.Sending() == Sender(clientHash, 1, Rng(0, 0), 0, 0)
              && e.Receiving() == Receiver(serverHash, 1, VariantFor(protocol, key[..], overhead).value.1, 0)
  {
    hide TableOf, MethodOf;
    var random := new XorShift128Plus();
    if protocol == AuthChainA {
      e := new Endpoint(ChainA, shared.(padding := MethodOf(ChainA)), clientHash, serverHash, random);
      return;
    }
    TableIsSizeTable(key[..], overhead);
    var sizes := InitDataSize(key, overhead, random);
    if sizes == None {
      return null;
    }
    var variant := ChainB(sizes.value);
    e := new Endpoint(variant, shared.(padding := MethodOf(variant)), clientHash, serverHash, random);
  }

  lemma ParserIsParse(k: Keys, r: Receiver, src: seq<byte>)
    ensures ParserOf(k)(r, src) == Parse(k, r, src)
  {
  }

  lemma ShortWaits(k: Keys, r: Receiver, src: seq<byte>)
    requires |src| <= 4
    ensures Loop(ParserOf(k), r, src) == Start(r).(rest := src)
  {
  }

  method NewDigest(d: Digest) returns (a: array<byte>)
    ensures fresh(a) && a[..] == d
  {
    a := new byte[16](i requires 0 <= i < 16 => d[i]);
  }

  /** Unpacking takes digest prefix and generator from the padding result, not from the receiver. */
  lemma UnpackIgnoresPrefix(k: Keys, r: Receiver, t: Receiver, p: Padding, n: nat, frame: seq<byte>)
    requires |frame| == n + p.len + 4 && r.id == t.id && r.cipher == t.cipher
    ensures Unpack(k, r, p, n, frame) == Unpack(k, t, p, n, frame)
  {
  }

  lemma NoiseSplits(k: Keys, from: nat, start: nat, n: nat)
    requires start <= n
    ensures Noise(k.random, from, start) == Noise(k.random, from, n)[..start]
    ensures Noise(k.random, from + start, n - start) == Noise(k.random, from, n)[start..]
  {
  }
}

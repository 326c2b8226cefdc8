/**
 The auth_aes128_md5, auth_aes128_sha1 and auth_sha1_v4 stream framing
 (ssr/protocol/auth_aes128_sha1.go, ssr/protocol/auth_sha1_v4.go).

 The protocols frame alike: a checked length, a padding whose own length is written in one byte or three,
 the payload, and a checksum. They differ in byte order, in the checks, and in how padding is drawn.
 */
module PaddedAuth {
  import opened Common
  import opened Bytes
  import opened FrameStream

  type Two = s: seq<byte> | |s| == 2 witness [0, 0]

  type Four = s: seq<byte> | |s| == 4 witness [0, 0, 0, 0]

  type Mac = s: seq<byte> | |s| >= 4 witness [0, 0, 0, 0]

  type pos = x: int | x >= 1 witness 1

  /**
   What distinguishes the protocols: byte order, the check of the length field and of the frame (given the
   frame number), and the range padding is drawn from (given the payload's length and the whole call's).
   Random numbers come from an arbitrary tape.
   */
  datatype Scheme = Scheme(
    bigEndian: bool,
    check: (u32, seq<byte>) -> Two,
    sum: (u32, seq<byte>) -> Four,
    range: (nat, nat) -> pos,
    random: nat -> nat)

  // -------- the concrete schemes --------

  /** How far padding may go in the aes128 protocols, which aim at one TCP segment. */
  function AesRange(overhead: nat, n: nat, full: nat): pos {
    var rev := 1460 - n - 9;
    if full >= 32 * 1024 - overhead then 1
    else if rev == 0 then 1
    else if rev < 0 then if rev > -1460 then rev + 1460 else 32
    else rev
  }

  function Keyed(hmac: (seq<byte>, seq<byte>) -> Mac, userKey: seq<byte>, id: u32, b: seq<byte>): Four {
    hmac(userKey + Le32(id), b)[..4]
  }

  function KeyedTwo(hmac: (seq<byte>, seq<byte>) -> Mac, userKey: seq<byte>, id: u32, b: seq<byte>): Two {
    Keyed(hmac, userKey, id, b)[..2]
  }

  function Aes128(userKey: seq<byte>, hmac: (seq<byte>, seq<byte>) -> Mac, overhead: nat, random: nat -> nat): Scheme {
    Scheme(false,
           (id: u32, b: seq<byte>) => KeyedTwo(hmac, userKey, id, b),
           (id: u32, b: seq<byte>) => Keyed(hmac, userKey, id, b),
           (n: nat, full: nat) => AesRange(overhead, n, full),
           random)
  }

  function Sha1Range(n: nat): pos {
    if n > 1200 then 1 else if n > 400 then 256 else 512
  }

  /** This scheme ignores the frame number. */
  function Sha1V4(crc32: seq<byte> -> u32, adler32: seq<byte> -> u32, random: nat -> nat): Scheme {
    Scheme(true,
           (id: u32, b: seq<byte>) => Le16(crc32(b) % 0x1_0000),
           (id: u32, b: seq<byte>) => Le32(adler32(b)),
           (n: nat, full: nat) => Sha1Range(n),
           random)
  }

  /** The aes128 protocols: little-endian, and both checks are of the digest keyed with user key and frame number. */
  lemma AesChecks(userKey: seq<byte>, hmac: (seq<byte>, seq<byte>) -> Mac, overhead: nat, random: nat -> nat, id: u32, b: seq<byte>)
    ensures var sc := Aes128(userKey, hmac, overhead, random);
            && !sc.bigEndian
            && sc.check(id, b) == hmac(userKey + Le32(id), b)[..2] && sc.sum(id, b) == hmac(userKey + Le32(id), b)[..4]
  {
    hide Le32;
  }

  /** auth_sha1_v4: big-endian; half of a CRC-32 checks the length, an Adler-32 the frame, both little-endian. */
  lemma Sha1Checks(crc32: seq<byte> -> u32, adler32: seq<byte> -> u32, random: nat -> nat, id: u32, b: seq<byte>)
    ensures var sc := Sha1V4(crc32, adler32, random);
            && sc.bigEndian
            && sc.check(id, b)[0] as int + 0x100 * sc.check(id, b)[1] as int == crc32(b) % 0x1_0000
            && sc.sum(id, b) == Le32(adler32(b))
  {
    hide Le32;
  }

  /** How much the aes128 protocols pad: none in large calls, otherwise towards full segments of 1460 bytes. */
  lemma AesPadding(userKey: seq<byte>, hmac: (seq<byte>, seq<byte>) -> Mac, overhead: nat, random: nat -> nat, n: nat, full: nat)
    ensures var range := Aes128(userKey, hmac, overhead, random).range(n, full);
            && (full + overhead >= 32768 || n == 1451 ==> range == 1)
            && (full + overhead < 32768 && n < 1451 ==> n + 9 + range == 1460)
            && (full + overhead < 32768 && 1451 < n < 2911 ==> n + 9 + range == 2 * 1460)
            && (full + overhead < 32768 && n >= 2911 ==> range == 32)
  {
  }

  /** How much auth_sha1_v4 pads. */
  lemma Sha1Padding(crc32: seq<byte> -> u32, adler32: seq<byte> -> u32, random: nat -> nat, n: nat, full: nat)
    ensures var range := Sha1V4(crc32, adler32, random).range(n, full);
            && (n > 1200 ==> range == 1) && (400 < n <= 1200 ==> range == 256) && (n <= 400 ==> range == 512)
  {
  }

  function PackedLength(n: nat, pad: nat): nat {
    2 + 2 + 3 + pad + n + 4 - (if pad < 128 then 2 else 0)
  }

  /** Every frame the encoder can produce lies within the lengths the decoder accepts. */
  ghost predicate FitsWindow(sc: Scheme) {
    forall n: nat, full: nat, pad: nat :: 1 <= n <= 8100 && pad < sc.range(n, full) ==> 7 <= PackedLength(n, pad) < 8192
  }

  lemma Aes128Fits(userKey: seq<byte>, hmac: (seq<byte>, seq<byte>) -> Mac, overhead: nat, random: nat -> nat)
    ensures FitsWindow(Aes128(userKey, hmac, overhead, random))
  {
  }

  lemma Sha1V4Fits(crc32: seq<byte> -> u32, adler32: seq<byte> -> u32, random: nat -> nat)
    ensures FitsWindow(Sha1V4(crc32, adler32, random))
  {
  }

  // -------- packing --------

  function Enc16(sc: Scheme, n: u16): (b: Two)
    ensures Dec16(sc, b) == n
  {
    if sc.bigEndian then Be16(n) else Le16(n)
  }

  function Dec16(sc: Scheme, b: Two): u16 {
    if sc.bigEndian then FromBe16(b) else FromLe16(b)
  }

  /** The padding with its own length in front: one byte below 128 bytes of padding, otherwise three. */
  function RandData(sc: Scheme, noise: seq<byte>): (r: seq<byte>)
    requires |noise| < 0xFFFD
    ensures |r| == |noise| + if |noise| < 128 then 1 else 3
  {
    (if |noise| < 128 then [|noise| + 1] else [255] + Enc16(sc, |noise| + 3)) + noise
  }

  /** The frame around a payload and a given padding. */
  function Assemble(sc: Scheme, id: u32, noise: seq<byte>, data: seq<byte>): (frame: seq<byte>)
    requires PackedLength(|data|, |noise|) < 0x1_0000 && |noise| < 0xFFFD
    ensures |frame| == PackedLength(|data|, |noise|)
  {
    var head := Enc16(sc, PackedLength(|data|, |noise|));
    var body := head + sc.check(id, head) + RandData(sc, noise) + data;
    body + sc.sum(id, body)
  }

  /** Two bytes as the scheme writes a number. */
  ghost predicate Writes16(sc: Scheme, a: byte, b: byte, n: nat) {
    n == if sc.bigEndian then 0x100 * a as int + b as int else a as int + 0x100 * b as int
  }

  /** A frame, byte for byte. */
  lemma FrameLayout(sc: Scheme, id: u32, noise: seq<byte>, data: seq<byte>)
    requires PackedLength(|data|, |noise|) < 0x1_0000 && |noise| < 0xFFFD
    ensures var frame := Assemble(sc, id, noise, data);
            var at := if |noise| < 128 then 5 else 7;
            var end := |frame| - 4;
            && |frame| == at + |noise| + |data| + 4
            && Writes16(sc, frame[0], frame[1], |frame|)
            && frame[2..4] == sc.check(id, frame[..2])
            && (|noise| < 128 ==> frame[4] as int == |noise| + 1)
            && (|noise| >= 128 ==> frame[4] == 255 && Writes16(sc, frame[5], frame[6], |noise| + 3))
            && frame[at..at + |noise|] == noise
            && frame[at + |noise|..end] == data
            && frame[end..] == sc.sum(id, frame[..end])
  {
    var frame := Assemble(sc, id, noise, data);
    var head, padding := Enc16(sc, |frame|), RandData(sc, noise);
    var body := head + sc.check(id, head) + padding + data;
    var end := |frame| - 4;
    assert frame[..end] == body && frame[..2] == head;
    PaddingLayout(sc, noise);
    assert frame[4..4 + |padding|] == padding && frame[4] == padding[0];
    if |noise| < 128 {
      assert frame[5..5 + |noise|] == padding[1..];
    } else {
      assert frame[5] == padding[1] && frame[6] == padding[2] && frame[7..7 + |noise|] == padding[3..];
    }
  }

  lemma PaddingLayout(sc: Scheme, noise: seq<byte>)
    requires |noise| < 0xFFFD
    ensures var padding := RandData(sc, noise);
            && (|noise| < 128 ==> padding[0] as int == |noise| + 1 && padding[1..] == noise)
            && (|noise| >= 128 ==> padding[0] == 255 && Writes16(sc, padding[1], padding[2], |noise| + 3) && padding[3..] == noise)
  {
  }

  datatype Sender = Sender(id: u32, drawn: nat)

  function PadLength(sc: Scheme, s: Sender, n: nat, full: nat): (pad: nat)
    ensures pad < sc.range(n, full)
  {
    sc.random(s.drawn) % sc.range(n, full)
  }

  /** One frame for a payload that is part of a call of `full` bytes, and the sender after it. */
  function Pack(sc: Scheme, s: Sender, data: seq<byte>, full: nat): (seq<byte>, Sender)
    requires FitsWindow(sc) && 1 <= |data| <= 8100
  {
    var pad := PadLength(sc, s, |data|, full);
    assert 7 <= PackedLength(|data|, pad) < 8192;
    (Assemble(sc, s.id, Noise(sc.random, s.drawn + 1, pad), data), Sender(Inc32(s.id), s.drawn + 1 + pad))
  }

  /** What one call of the packer draws, and where it puts it; and the sender after it. */
  lemma PackShape(sc: Scheme, s: Sender, data: seq<byte>, full: nat)
    requires FitsWindow(sc) && 1 <= |data| <= 8100
    ensures var (frame, s') := Pack(sc, s, data, full);
            var pad := sc.random(s.drawn) % sc.range(|data|, full);
            var at := if pad < 128 then 5 else 7;
            && |frame| == at + pad + |data| + 4
            && frame[2..4] == sc.check(s.id, frame[..2]) && frame[|frame| - 4..] == sc.sum(s.id, frame[..|frame| - 4])
            && frame[at..at + pad] == Noise(sc.random, s.drawn + 1, pad) && frame[at + pad..|frame| - 4] == data
            && s' == Sender((s.id + 1) % 0x1_0000_0000, s.drawn + 1 + pad)
  {
    hide Assemble, Noise;
    var pad := sc.random(s.drawn) % sc.range(|data|, full);
    assert 7 <= PackedLength(|data|, pad) < 8192;
    FrameLayout(sc, s.id, Noise(sc.random, s.drawn + 1, pad), data);
  }

  // -------- unpacking --------

  /** What the receiver makes of a frame known to be whole. */
  function Unpack(sc: Scheme, id: u32, frame: seq<byte>): Turn<u32>
    requires |frame| >= 7
  {
    var end := |frame| - 4;
    if sc.sum(id, frame[..end]) != frame[end..] then Fail(WrongChecksum, id)
    else
      var start := 4 + if frame[4] < 255 then frame[4] else Dec16(sc, frame[5..7]);
      if start > end then Fail(OutOfRange, Inc32(id)) else Frame(|frame|, frame[start..end], Inc32(id))
  }

  function Parse(sc: Scheme, id: u32, src: seq<byte>): Turn<u32> {
    if |src| <= 4 then More(id)
    else if sc.check(id, src[..2]) != src[2..4] then Fail(WrongMac, id)
    else
      var length := Dec16(sc, src[..2]);
      if length >= 8192 || length < 7 then Fail(WrongLength, id)
      else if length > |src| then More(id)
      else Unpack(sc, id, src[..length])
  }

  /**
   What decoding makes of the bytes at hand, if there are more than four: the length's check comes first, lengths
   outside [7, 8192) are refused, whole frames are waited for, and a whole frame is accepted if and only if it ends
   in its checksum and its padding leaves room for a payload.
   */
  lemma AcceptsIff(sc: Scheme, id: u32, src: seq<byte>, length: nat)
    requires |src| > 4 && Writes16(sc, src[0], src[1], length)
    ensures var turn := Parse(sc, id, src);
            var checked := sc.check(id, src[..2]) == src[2..4];
            && (!checked <==> turn.Fail? && turn.error == WrongMac)
            && (checked && !(7 <= length < 8192) <==> turn.Fail? && turn.error == WrongLength)
            && (checked && 7 <= length < 8192 && length > |src| <==> turn.More?)
            && (checked && 7 <= length < 8192 && length <= |src| ==>
                  var start := 4 + if src[4] < 255 then src[4] as int else Dec16(sc, src[5..7]);
                  var summed := sc.sum(id, src[..length - 4]) == src[length - 4..length];
                  && (!summed <==> turn.Fail? && turn.error == WrongChecksum)
                  && (summed && start > length - 4 <==> turn.Fail? && turn.error == OutOfRange)
                  && (summed && start <= length - 4 <==> turn.Frame?)
                  && (summed && start <= length - 4 ==> turn == Frame(length, src[start..length - 4], Inc32(id))))
  {
    hide Inc32;
    assert src[..2][0] == src[0] && src[..2][1] == src[1];
    if 7 <= length <= |src| {
      var frame := src[..length];
      assert frame[..length - 4] == src[..length - 4] && frame[length - 4..] == src[length - 4..length];
      assert frame[5..7] == src[5..7];
    }
  }

  function ParserOf(sc: Scheme): (p: Parser<u32>)
    ensures Advances(p)
  {
    (id: u32, src: seq<byte>) => Parse(sc, id, src)
  }

  predicate Same(a: u32, b: u32) {
    a == b
  }

  lemma ParseStable(sc: Scheme, id: u32, a: seq<byte>, b: seq<byte>)
    requires a <= b && !Parse(sc, id, a).More?
    ensures Parse(sc, id, a) == Parse(sc, id, b)
  {
    hide Unpack;
    assert a[..2] == b[..2] && a[2..4] == b[2..4];
    var length := Dec16(sc, a[..2]);
    if length <= |a| {
      assert a[..length] == b[..length];
    }
  }

  lemma PaddedIncremental(sc: Scheme)
    ensures Incremental(ParserOf(sc), Same)
  {
    var p := ParserOf(sc);
    forall id, a, b | a <= b
      ensures if p(id, a).More? then Same(p(id, a).state, id) else SameTurn(Same, p(id, a), p(id, b))
    {
      if !p(id, a).More? {
        ParseStable(sc, id, a, b);
      }
    }
  }

  // -------- round trip --------

  /** The receiver finds the payload behind either form of the padding's length. */
  lemma UnpackAssembled(sc: Scheme, id: u32, noise: seq<byte>, data: seq<byte>)
    requires 7 <= PackedLength(|data|, |noise|) < 0x1_0000 && |noise| < 0xFFFD && data != []
    ensures var frame := Assemble(sc, id, noise, data);
            Unpack(sc, id, frame) == Frame(|frame|, data, Inc32(id))
  {
    var frame := Assemble(sc, id, noise, data);
    var head := Enc16(sc, |frame|);
    var padding := RandData(sc, noise);
    var body := head + sc.check(id, head) + padding + data;
    var end := |frame| - 4;
    assert frame[..end] == body && frame[end..] == sc.sum(id, body);
    assert frame[4] == padding[0];
    if |noise| >= 128 {
      assert frame[5..7] == padding[1..3] == Enc16(sc, |noise| + 3);
    }
    assert frame[4 + |padding|..end] == data;
  }

  /** A frame followed by anything is decoded to its payload by a receiver that expects its number. */
  lemma FrameParses(sc: Scheme, id: u32, noise: seq<byte>, data: seq<byte>, tail: seq<byte>)
    requires data != [] && 7 <= PackedLength(|data|, |noise|) < 8192
    ensures var frame := Assemble(sc, id, noise, data);
            Parse(sc, id, frame + tail) == Frame(|frame|, data, Inc32(id))
  {
    var frame := Assemble(sc, id, noise, data);
    var src := frame + tail;
    UnpackAssembled(sc, id, noise, data);
    var head := Enc16(sc, |frame|);
    assert src[..2] == head && src[2..4] == sc.check(id, head) && src[..|frame|] == frame by {
      hide RandData;
    }
  }

  function PackAll(sc: Scheme, s: Sender, payloads: seq<seq<byte>>, full: nat): (seq<byte>, Sender)
    requires FitsWindow(sc) && forall d :: d in payloads ==> 1 <= |d| <= 8100
    decreases |payloads|
  {
    if payloads == [] then ([], s)
    else
      var (frame, s1) := Pack(sc, s, payloads[0], full);
      var (frames, s2) := PackAll(sc, s1, payloads[1..], full);
      (frame + frames, s2)
  }

  lemma PackParses(sc: Scheme, s: Sender, data: seq<byte>, full: nat, tail: seq<byte>)
    requires FitsWindow(sc) && 1 <= |data| <= 8100
    ensures var (frame, s') := Pack(sc, s, data, full);
            ParserOf(sc)(s.id, frame + tail) == Frame(|frame|, data, s'.id)
  {
    hide Assemble, Parse;
    var pad := PadLength(sc, s, |data|, full);
    FrameParses(sc, s.id, Noise(sc.random, s.drawn + 1, pad), data, tail);
  }

  lemma {:induction false} StreamDecodes(sc: Scheme, s: Sender, payloads: seq<seq<byte>>, full: nat)
    requires FitsWindow(sc) && forall d :: d in payloads ==> 1 <= |d| <= 8100
    ensures var (bytes, s') := PackAll(sc, s, payloads, full);
            Loop(ParserOf(sc), s.id, bytes) == Run(s'.id, Flatten(payloads), [], None)
    decreases |payloads|
  {
    if payloads != [] {
      hide Pack, ParserOf, FitsWindow;
      var (frame, s1) := Pack(sc, s, payloads[0], full);
      var frames := PackAll(sc, s1, payloads[1..], full).0;
      PackParses(sc, s, payloads[0], full, frames);
      assert (frame + frames)[|frame|..] == frames;
      StreamDecodes(sc, s1, payloads[1..], full);
    }
  }

  /** What a call to send a byte string puts on the wire, once the header is out. */
  function Encoded(sc: Scheme, s: Sender, b: seq<byte>): (r: (seq<byte>, Sender))
    requires FitsWindow(sc)
    ensures forall d :: d in Chunks(b, 8100) ==> 1 <= |d| <= 8100
    ensures r == PackAll(sc, s, Chunks(b, 8100), |b|)
  {
    ChunksSized(b, 8100);
    PackAll(sc, s, Chunks(b, 8100), |b|)
  }

  /**
   Any byte string sent comes out whole, however its frames are cut up on the way, whatever padding is drawn,
   and the frame numbers agree afterwards (they wrap together, so this holds for a connection of any length).
   */
  lemma PaddedRoundTrip(sc: Scheme, s: Sender, b: seq<byte>, pieces: seq<seq<byte>>)
    requires FitsWindow(sc) && Flatten(pieces) == Encoded(sc, s, b).0
    ensures Feed(ParserOf(sc), Start(s.id), pieces) == Run(Encoded(sc, s, b).1.id, b, [], None)
  {
    ChunksSized(b, 8100);
    StreamDecodes(sc, s, Chunks(b, 8100), |b|);
    PaddedIncremental(sc);
    FeedIsLoop(ParserOf(sc), Same, s.id, pieces);
  }

  // -------- the endpoint as the source runs it --------

  ghost function After(buf: seq<byte>, packed: (seq<byte>, Sender)): (seq<byte>, Sender) {
    (buf + packed.0, packed.1)
  }

  lemma PackAllStep(sc: Scheme, s: Sender, buf: seq<byte>, first: seq<byte>, rest: seq<seq<byte>>, full: nat)
    requires FitsWindow(sc) && 1 <= |first| <= 8100 && forall d :: d in rest ==> 1 <= |d| <= 8100
    ensures var (frame, s1) := Pack(sc, s, first, full);
            After(buf, PackAll(sc, s, [first] + rest, full)) == After(buf + frame, PackAll(sc, s1, rest, full))
  {
    hide Pack, FitsWindow;
    var (frame, s1) := Pack(sc, s, first, full);
    var more := PackAll(sc, s1, rest, full);
    assert ([first] + rest)[1..] == rest;
    assert buf + (frame + more.0) == (buf + frame) + more.0;
  }

  class Endpoint {
    const sc: Scheme
    var rawTrans: bool
    var packID: u32
    var recvID: u32
    var drawn: nat

    constructor (sc: Scheme)
      ensures this.sc == sc && !rawTrans && packID == 1 && recvID == 1 && drawn == 0
    {
      this.sc := sc;
      rawTrans, packID, recvID, drawn := false, 1, 1, 0;
    }

    function Sending(): Sender
      reads this
    {
      Sender(packID, drawn)
    }

    method Intn(n: pos) returns (v: nat)
      modifies this`drawn
      ensures v == sc.random(old(drawn)) % n && drawn == old(drawn) + 1
    {
      v := sc.random(drawn) % n;
      drawn := drawn + 1;
    }

    method PackRandData(size: nat) returns (b: seq<byte>)
      requires size < 0xFFFD
      modifies this`drawn
      ensures b == RandData(sc, Noise(sc.random, old(drawn), size)) && drawn == old(drawn) + size
    {
      var noise := Noise(sc.random, drawn, size);
      drawn := drawn + size;
      if size < 128 {
        b := [size + 1] + noise;
      } else {
        b := [255] + Enc16(sc, size + 3) + noise;
      }
    }

    method PackData(data: seq<byte>, fullDataLength: nat) returns (frame: seq<byte>)
      requires FitsWindow(sc) && 1 <= |data| <= 8100
      modifies this`packID, this`drawn
      ensures (frame, Sending()) == Pack(sc, old(Sending()), data, fullDataLength)
    {
      var pad := Intn(sc.range(|data|, fullDataLength));
      var length := 2 + 2 + 3 + pad + |data| + 4;
      if pad < 128 {
        length := length - 2;
      }
      assert length == PackedLength(|data|, pad);
      var id := packID;
      packID := Inc32(packID);
      var head := Enc16(sc, length);
      var padding := PackRandData(pad);
      var body := head + sc.check(id, head) + padding + data;
      frame := body + sc.sum(id, body);
    }

    /** Sends a byte string once the header is out. */
    method Encode(b: seq<byte>) returns (buf: seq<byte>)
      requires FitsWindow(sc)
      modifies this`packID, this`drawn
      ensures (buf, Sending()) == Encoded(sc, old(Sending()), b)
    {
      hide Pack, FitsWindow;
      ChunksSized(b, 8100);
      buf := [];
      var i := 0;
      assert b[0..] == b && forall x: seq<byte> :: [] + x == x;
      while |b| - i > 8100
        invariant 0 <= i <= |b|
        invariant forall d :: d in Chunks(b[i..], 8100) ==> 1 <= |d| <= 8100
        invariant After(buf, PackAll(sc, Sending(), Chunks(b[i..], 8100), |b|)) == Encoded(sc, old(Sending()), b)
      {
        ChunksAt(b, i, 8100);
        ChunksSized(b[i + 8100..], 8100);
        PackAllStep(sc, Sending(), buf, b[i..i + 8100], Chunks(b[i + 8100..], 8100), |b|);
        var frame := PackData(b[i..i + 8100], |b|);
        i := i + 8100;
        buf := buf + frame;
      }
      ChunksAt(b, i, 8100);
      if i < |b| {
        PackAllStep(sc, Sending(), buf, b[i..], [], |b|);
        var frame := PackData(b[i..], |b|);
        buf := buf + frame;
      }
      assert buf + [] == buf;
    }

    /** Checks a frame known to be whole and finds its payload. */
    method OpenFrame(frame: seq<byte>) returns (turn: Turn<()>)
      requires |frame| >= 7
      modifies this`recvID
      ensures Unpack(sc, old(recvID), frame) == WithState(turn, recvID)
      ensures !turn.More? && (turn.Frame? ==> turn.size == |frame|)
    {
      var end := |frame| - 4;
      if sc.sum(recvID, frame[..end]) != frame[end..] {
        return Fail(WrongChecksum, ());
      }
      recvID := Inc32(recvID);
      var pos := frame[4] as int;
      if pos < 255 {
        pos := pos + 4;
      } else {
        pos := Dec16(sc, frame[5..7]) + 4;
      }
      if pos > end {
        return Fail(OutOfRange, ());
      }
      turn := Frame(|frame|, frame[pos..end], ());
    }

    /** Decodes what has arrived; the bytes not used are handed back. */
    method Decode(src: seq<byte>) returns (dst: seq<byte>, rest: seq<byte>, err: Option<Error>)
      modifies this`rawTrans, this`recvID
      ensures old(rawTrans) ==> dst == src && rest == [] && err == None && recvID == old(recvID)
      ensures !old(rawTrans) ==> Run(recvID, dst, rest, err) == Loop(ParserOf(sc), old(recvID), src)
      ensures rawTrans == (old(rawTrans) || err == Some(WrongLength) || err == Some(WrongChecksum))
      ensures err.Some? ==> rest == []
    {
      if rawTrans {
        return src, [], None;
      }
      hide Unpack;
      dst, rest, err := [], src, None;
      ghost var p := ParserOf(sc);
      while |rest| > 4
        invariant !rawTrans && err == None
        invariant Then(dst, Loop(p, recvID, rest)) == Loop(p, old(recvID), src)
        decreases |rest|
      {
        if sc.check(recvID, rest[..2]) != rest[2..4] {
          return dst, [], Some(WrongMac);
        }
        var length := Dec16(sc, rest[..2]);
        if length >= 8192 || length < 7 {
          rawTrans := true;
          return dst, [], Some(WrongLength);
        }
        if length > |rest| {
          return;
        }
        var turn := OpenFrame(rest[..length]);
        if turn.Fail? {
          rawTrans := turn.error == WrongChecksum;
          return dst, [], Some(turn.error);
        }
        ThenJoins(dst, turn.payload, Loop(p, recvID, rest[length..]));
        dst := dst + turn.payload;
        rest := rest[length..];
      }
    }
  }
}

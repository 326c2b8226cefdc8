/**
 The authenticated stream (ss/aead/stream_conn.go): each chunk of plaintext travels as a sealed two-byte length
 and a sealed payload, each under the next value of a nonce counter.
 */
module Aead {
  import opened Common
  import opened Bytes
  import opened FrameStream

  const MAX_TCP_BUFFER_SIZE := 16 * 1024

  // -------- the nonce counter --------

  /** Little-endian value of a byte string. */
  function Value(s: seq<byte>): nat {
    if s == [] then 0 else s[0] + 256 * Value(s[1..])
  }

  function Pow256(n: nat): (p: nat)
    ensures p > 0
  {
    if n == 0 then 1 else 256 * Pow256(n - 1)
  }

  /** The counter after one increment: carry as long as bytes wrap to zero. */
  function Increment(s: seq<byte>): (r: seq<byte>)
    ensures |r| == |s|
  {
    if s == [] then [] else if s[0] == 255 then [0] + Increment(s[1..]) else [s[0] + 1] + s[1..]
  }

  function IncrementBy(s: seq<byte>, k: nat): (r: seq<byte>)
    ensures |r| == |s|
  {
    if k == 0 then s else Increment(IncrementBy(s, k - 1))
  }

  lemma {:induction false} ValueBound(s: seq<byte>)
    ensures Value(s) < Pow256(|s|)
  {
    if s != [] {
      ValueBound(s[1..]);
    }
  }

  /** The increment adds one modulo 256^n, for a counter of every length n. */
  lemma {:induction false} IncrementAddsOne(s: seq<byte>)
    ensures Value(Increment(s)) == if Value(s) + 1 == Pow256(|s|) then 0 else Value(s) + 1
  {
    if s != [] {
      ValueBound(s[1..]);
      IncrementAddsOne(s[1..]);
      assert Increment(s)[1..] == if s[0] == 255 then Increment(s[1..]) else s[1..];
    }
  }

  lemma {:induction false} IncrementByAdds(s: seq<byte>, k: nat)
    ensures Value(IncrementBy(s, k)) == (Value(s) + k) % Pow256(|s|)
  {
    hide Increment, Value, Pow256;
    ValueBound(s);
    BlockOf(Value(s), Pow256(|s|), 0);
    if k > 0 {
      IncrementByAdds(s, k - 1);
      IncrementAddsOne(IncrementBy(s, k - 1));
      ModStep(Value(s) + k - 1, Pow256(|s|));
    }
  }

  lemma ModStep(a: nat, m: nat)
    requires m > 0
    ensures (a + 1) % m == if a % m + 1 == m then 0 else a % m + 1
  {
    SumMod(a, 1, m);
    if m > 1 {
      BlockOf(1, m, 0);
    }
  }

  lemma SumMod(a: nat, b: nat, m: nat)
    requires m > 0
    ensures (a + b) % m == if a % m + b % m < m then a % m + b % m else a % m + b % m - m
  {
    var p, q := a / m, b / m;
    BlockOf(a, m, p);
    BlockOf(b, m, q);
    BlockOf(a + b, m, p + q);
    BlockOf(a + b, m, p + q + 1);
    assert (p + q) * m == p * m + q * m && (p + q + 1) * m == p * m + q * m + m;
  }

  lemma {:induction false} ValueInjective(a: seq<byte>, b: seq<byte>)
    requires |a| == |b| && Value(a) == Value(b)
    ensures a == b
  {
    if a != [] {
      assert a == [a[0]] + a[1..] && b == [b[0]] + b[1..];
      ValueInjective(a[1..], b[1..]);
    }
  }

  lemma SameResidue(v: nat, d: nat, m: nat)
    requires m > 0
    ensures v % m == (v + d) % m <==> d % m == 0
  {
    SumMod(v, d, m);
  }

  /** Two uses of the counter see the same nonce exactly when a multiple of 256^n increments lies between them. */
  lemma NoncesRepeat(s: seq<byte>, i: nat, j: nat)
    requires i <= j
    ensures IncrementBy(s, i) == IncrementBy(s, j) <==> (j - i) % Pow256(|s|) == 0
  {
    IncrementByAdds(s, i);
    IncrementByAdds(s, j);
    SameResidue(Value(s) + i, j - i, Pow256(|s|));
    if Value(IncrementBy(s, i)) == Value(IncrementBy(s, j)) {
      ValueInjective(IncrementBy(s, i), IncrementBy(s, j));
    }
  }

  /** The nonces of k sealings, one after the other. */
  ghost function Nonces(s: seq<byte>, k: nat): (r: seq<seq<byte>>)
    ensures |r| == k
  {
    seq(k, i requires 0 <= i < k => IncrementBy(s, i))
  }

  lemma SmallResidue(d: nat, m: nat)
    requires 0 < d < m
    ensures d % m != 0
  {
    BlockOf(d, m, 0);
  }

  lemma CloseNoncesDiffer(s: seq<byte>, i: nat, j: nat)
    requires i < j < i + Pow256(|s|)
    ensures IncrementBy(s, i) != IncrementBy(s, j)
  {
    hide IncrementBy, Pow256;
    SmallResidue(j - i, Pow256(|s|));
    NoncesRepeat(s, i, j);
  }

  /** Of the first 256^n sealings no two share a nonce. */
  lemma NonceOnce(s: seq<byte>, k: nat, i: nat, j: nat)
    requires i < j < k <= Pow256(|s|)
    ensures Nonces(s, k)[i] != Nonces(s, k)[j]
  {
    hide IncrementBy, Pow256;
    CloseNoncesDiffer(s, i, j);
  }

  lemma OneMoreNonce(s: seq<byte>, k: nat)
    ensures Nonces(s, k + 1) == Nonces(s, k) + [IncrementBy(s, k)]
    ensures IncrementBy(s, k + 1) == Increment(IncrementBy(s, k))
  {
    hide Increment;
  }

  /** A run of 255s in front carries: those bytes become zero, and the rest is incremented. */
  lemma {:induction false} Carry(s: seq<byte>, i: nat)
    requires i <= |s| && forall j :: 0 <= j < i ==> s[j] == 255
    ensures Increment(s)[i..] == Increment(s[i..])
    ensures forall j :: 0 <= j < i ==> Increment(s)[j] == 0
  {
    if i > 0 {
      Carry(s[1..], i - 1);
      assert s[1..][i - 1..] == s[i..];
      assert Increment(s) == [0] + Increment(s[1..]);
      assert ([0] + Increment(s[1..]))[i..] == Increment(s[1..])[i - 1..];
    }
  }

  method IncrementInPlace(nonce: array<byte>)
    modifies nonce
    ensures nonce[..] == Increment(old(nonce[..]))
  {
    ghost var s := nonce[..];
    var i := 0;
    while i < nonce.Length
      invariant 0 <= i <= nonce.Length
      invariant forall j :: 0 <= j < i ==> s[j] == 255 && nonce[j] == 0
      invariant forall j :: i <= j < nonce.Length ==> nonce[j] == s[j]
    {
      nonce[i] := if nonce[i] == 255 then 0 else nonce[i] + 1;
      if nonce[i] != 0 {
        break;
      }
      i := i + 1;
    }
    Carry(s, i);
    assert nonce[i..] == Increment(s[i..]) by {
      assert i < nonce.Length ==> nonce[i..] == [s[i] + 1] + s[i..][1..];
    }
    assert nonce[..] == nonce[..i] + nonce[i..] && Increment(s) == Increment(s)[..i] + Increment(s)[i..];
  }

  // -------- frames --------

  /** An authenticated cipher under one key: arbitrary, but sealing adds a fixed overhead and opening undoes it. */
  datatype Suite = Suite(
    overhead: nat,
    seal: (seq<byte>, seq<byte>) -> seq<byte>,
    open: (seq<byte>, seq<byte>) -> Option<seq<byte>>)

  ghost predicate Lawful(c: Suite) {
    && (forall n, p :: |c.seal(n, p)| == |p| + c.overhead)
    && (forall n, p :: c.open(n, c.seal(n, p)) == Some(p))
    && (forall n, x :: c.open(n, x).Some? ==> |c.open(n, x).value| + c.overhead == |x|)
  }

  function SealedFrame(c: Suite, nonce: seq<byte>, data: seq<byte>): seq<byte> {
    c.seal(nonce, Be16(|data| % 0x1_0000)) + c.seal(Increment(nonce), data)
  }

  function Frames(c: Suite, nonce: seq<byte>, chunks: seq<seq<byte>>): seq<byte>
    decreases |chunks|
  {
    if chunks == [] then [] else SealedFrame(c, nonce, chunks[0]) + Frames(c, IncrementBy(nonce, 2), chunks[1..])
  }

  datatype Failure =
    | Short       // the connection ended inside a frame
    | Forged      // a part failed to open
    | TooLarge    // the length was refused
    | OutOfBuffer // the length passed the check but not the buffer

  /** What reading one frame comes to: its payload, or a failure after some uses of the counter. */
  datatype Taken =
    | Payload(data: seq<byte>, rest: seq<byte>)
    | Failed(error: Failure, rest: seq<byte>, uses: nat)

  function TakeFrame(c: Suite, nonce: seq<byte>, src: seq<byte>): Taken
    requires Lawful(c)
  {
    if |src| < 2 + c.overhead then Failed(Short, [], 0)
    else
      match c.open(nonce, src[..2 + c.overhead])
      case None => Failed(Forged, src[2 + c.overhead..], 1)
      case Some(head) =>
        var size := FromBe16(head);
        var body := src[2 + c.overhead..];
        if size > MAX_TCP_BUFFER_SIZE + c.overhead then Failed(TooLarge, body, 1)
        else if size > MAX_TCP_BUFFER_SIZE then Failed(OutOfBuffer, body, 1)
        else if |body| < size + c.overhead then Failed(Short, [], 1)
        else
          match c.open(Increment(nonce), body[..size + c.overhead])
          case None => Failed(Forged, body[size + c.overhead..], 2)
          case Some(data) => Payload(data, body[size + c.overhead..])
  }

  /** A frame followed by anything gives back exactly its chunk, whatever the key and nonce. */
  lemma FrameTaken(c: Suite, nonce: seq<byte>, data: seq<byte>, tail: seq<byte>)
    requires Lawful(c) && |data| <= MAX_TCP_BUFFER_SIZE
    ensures TakeFrame(c, nonce, SealedFrame(c, nonce, data) + tail) == Payload(data, tail)
  {
    hide Increment;
    var head, body := c.seal(nonce, Be16(|data|)), c.seal(Increment(nonce), data);
    var src := SealedFrame(c, nonce, data) + tail;
    assert src[..2 + c.overhead] == head && src[2 + c.overhead..] == body + tail;
    assert (body + tail)[..|data| + c.overhead] == body && (body + tail)[|data| + c.overhead..] == tail;
  }

  /** How reading a frame fails, in the order things are checked, and how often the counter has been used by then. */
  lemma FailsIff(c: Suite, nonce: seq<byte>, src: seq<byte>)
    requires Lawful(c)
    ensures var t := TakeFrame(c, nonce, src);
            var n := 2 + c.overhead;
            && (|src| < n ==> t == Failed(Short, [], 0))
            && (|src| >= n && c.open(nonce, src[..n]) == None ==> t == Failed(Forged, src[n..], 1))
            && (|src| >= n && c.open(nonce, src[..n]).Some? ==>
                  var head := c.open(nonce, src[..n]).value;
                  var size := 0x100 * head[0] as int + head[1] as int;
                  && (size > 16384 + c.overhead ==> t == Failed(TooLarge, src[n..], 1))
                  && (16384 < size <= 16384 + c.overhead ==> t == Failed(OutOfBuffer, src[n..], 1))
                  && (size <= 16384 && |src| < n + size + c.overhead ==> t == Failed(Short, [], 1))
                  && (size <= 16384 && |src| >= n + size + c.overhead ==>
                        var end := n + size + c.overhead;
                        match c.open(Increment(nonce), src[n..end])
                        case None => t == Failed(Forged, src[end..], 2)
                        case Some(data) => t == Payload(data, src[end..])))
  {
    hide Increment;
    var n := 2 + c.overhead;
    if |src| >= n && c.open(nonce, src[..n]).Some? {
      var head := c.open(nonce, src[..n]).value;
      var size := FromBe16(head);
      if |src| >= n + size + c.overhead {
        assert src[n..][..size + c.overhead] == src[n..n + size + c.overhead];
        assert src[n..][size + c.overhead..] == src[n + size + c.overhead..];
      }
    }
  }

  /**
   The length check lets more through than the buffer holds. A frame of any length a header can carry is read
   exactly when its chunk fits the buffer; past the check but not the buffer it runs off the end.
   */
  lemma FrameTakenIff(c: Suite, nonce: seq<byte>, data: seq<byte>, tail: seq<byte>)
    requires Lawful(c) && |data| < 0x1_0000
    ensures var t := TakeFrame(c, nonce, SealedFrame(c, nonce, data) + tail);
            && (t == Payload(data, tail) <==> |data| <= MAX_TCP_BUFFER_SIZE)
            && (t.Failed? && t.error == OutOfBuffer <==> MAX_TCP_BUFFER_SIZE < |data| <= MAX_TCP_BUFFER_SIZE + c.overhead)
            && (t.Failed? && t.error == TooLarge <==> MAX_TCP_BUFFER_SIZE + c.overhead < |data|)
  {
    hide Increment;
    if |data| <= MAX_TCP_BUFFER_SIZE {
      FrameTaken(c, nonce, data, tail);
    } else {
      var src := SealedFrame(c, nonce, data) + tail;
      assert src[..2 + c.overhead] == c.seal(nonce, Be16(|data|));
    }
  }

  // -------- a connection: writes on one end, reads on the other --------

  /**
   `wire` is in flight; `remain` is what the last frame left over. The last three fields are history: all that
   was written, all that was read, and the chunks in flight.
   */
  datatype Link = Link(
    writerNonce: seq<byte>,
    readerNonce: seq<byte>,
    wire: seq<byte>,
    remain: seq<byte>,
    written: seq<byte>,
    read: seq<byte>,
    inFlight: seq<seq<byte>>)

  function Begin(nonceSize: nat): Link {
    var zero := seq(nonceSize, _ => 0 as byte);
    Link(zero, zero, [], [], [], [], [])
  }

  function Sent(c: Suite, l: Link, b: seq<byte>): Link {
    var chunks := Chunks(b, MAX_TCP_BUFFER_SIZE);
    l.(writerNonce := IncrementBy(l.writerNonce, 2 * |chunks|),
       wire := l.wire + Frames(c, l.writerNonce, chunks),
       written := l.written + b,
       inFlight := l.inFlight + chunks)
  }

  /** A read into a buffer of the given capacity; with nothing left over and nothing in flight it would block. */
  function Received(c: Suite, l: Link, capacity: nat): Link
    requires Lawful(c)
  {
    if l.remain != [] then
      var n := Min(capacity, |l.remain|);
      l.(remain := l.remain[n..], read := l.read + l.remain[..n])
    else
      match TakeFrame(c, l.readerNonce, l.wire)
      case Payload(data, rest) =>
        var n := Min(capacity, |data|);
        l.(readerNonce := IncrementBy(l.readerNonce, 2), wire := rest, remain := data[n..], read := l.read + data[..n],
           inFlight := if l.inFlight == [] then [] else l.inFlight[1..])
      case _ => l
  }

  function Min(a: nat, b: nat): nat {
    if a < b then a else b
  }

  /**
   Nothing is lost, duplicated or reordered: what was written is what was read, then what is left over, then
   what is in flight; and the writer's counter is two ahead of the reader's for each frame in flight.
   */
  ghost predicate Faithful(c: Suite, l: Link) {
    && |l.writerNonce| == |l.readerNonce|
    && l.written == l.read + l.remain + Flatten(l.inFlight)
    && l.wire == Frames(c, l.readerNonce, l.inFlight)
    && l.writerNonce == IncrementBy(l.readerNonce, 2 * |l.inFlight|)
    && forall d :: d in l.inFlight ==> 1 <= |d| <= MAX_TCP_BUFFER_SIZE
  }

  lemma {:induction false} IncrementByJoins(s: seq<byte>, i: nat, j: nat)
    ensures IncrementBy(IncrementBy(s, i), j) == IncrementBy(s, i + j)
  {
    if j > 0 {
      IncrementByJoins(s, i, j - 1);
    }
  }

  lemma {:induction false} FramesJoin(c: Suite, nonce: seq<byte>, a: seq<seq<byte>>, b: seq<seq<byte>>)
    ensures Frames(c, nonce, a + b) == Frames(c, nonce, a) + Frames(c, IncrementBy(nonce, 2 * |a|), b)
    ensures Flatten(a + b) == Flatten(a) + Flatten(b)
    decreases |a|
  {
    hide SealedFrame, Increment, IncrementBy;
    if a == [] {
      assert a + b == b;
      NoFrames(c, nonce);
    } else {
      assert (a + b)[1..] == a[1..] + b;
      assert 2 + 2 * (|a| - 1) == 2 * |a| && |a[1..]| == |a| - 1;
      IncrementByJoins(nonce, 2, 2 * (|a| - 1));
      FramesJoin(c, IncrementBy(nonce, 2), a[1..], b);
    }
  }

  lemma SentFaithful(c: Suite, l: Link, b: seq<byte>)
    requires Faithful(c, l)
    ensures Faithful(c, Sent(c, l, b))
  {
    hide Frames, Flatten, Chunks, IncrementBy;
    var chunks := Chunks(b, MAX_TCP_BUFFER_SIZE);
    ChunksSized(b, MAX_TCP_BUFFER_SIZE);
    FramesJoin(c, l.readerNonce, l.inFlight, chunks);
    IncrementByJoins(l.readerNonce, 2 * |l.inFlight|, 2 * |chunks|);
    assert 2 * |l.inFlight| + 2 * |chunks| == 2 * |l.inFlight + chunks|;
    assert (l.read + l.remain + Flatten(l.inFlight)) + b == l.read + l.remain + (Flatten(l.inFlight) + b);
  }

  lemma ReceivedFaithful(c: Suite, l: Link, capacity: nat)
    requires Lawful(c) && Faithful(c, l)
    ensures Faithful(c, Received(c, l, capacity))
    ensures l.remain != [] || l.inFlight != [] ==>
              |Received(c, l, capacity).read| == |l.read| + Min(capacity, if l.remain != [] then |l.remain| else |l.inFlight[0]|)
  {
    if l.remain != [] {
      hide TakeFrame, Frames, Flatten, IncrementBy;
      var n := Min(capacity, |l.remain|);
      assert l.read + l.remain == (l.read + l.remain[..n]) + l.remain[n..];
    } else if l.inFlight != [] {
      FirstFrameTaken(c, l, capacity);
    } else {
      hide IncrementBy, Increment;
      assert TakeFrame(c, l.readerNonce, l.wire) == Failed(Short, [], 0);
    }
  }

  lemma FirstFrameTaken(c: Suite, l: Link, capacity: nat)
    requires Lawful(c) && Faithful(c, l) && l.remain == [] && l.inFlight != []
    ensures Faithful(c, Received(c, l, capacity))
    ensures |Received(c, l, capacity).read| == |l.read| + Min(capacity, |l.inFlight[0]|)
  {
    hide TakeFrame, SealedFrame, Increment, IncrementBy;
    var data, more := l.inFlight[0], l.inFlight[1..];
    var n := Min(capacity, |data|);
    FrameTaken(c, l.readerNonce, data, Frames(c, IncrementBy(l.readerNonce, 2), more));
    IncrementByJoins(l.readerNonce, 2, 2 * |more|);
    assert l.read + [] + (data + Flatten(more)) == (l.read + data[..n]) + data[n..] + Flatten(more);
  }

  datatype Action = Write(b: seq<byte>) | Read(capacity: nat)

  function Play(c: Suite, l: Link, run: seq<Action>): Link
    requires Lawful(c)
    decreases |run|
  {
    if run == [] then l
    else
      var next := match run[0] case Write(b) => Sent(c, l, b) case Read(k) => Received(c, l, k);
      Play(c, next, run[1..])
  }

  /** Over every interleaving of writes and reads of any sizes, the connection stays faithful. */
  lemma {:induction false} EveryRunFaithful(c: Suite, l: Link, run: seq<Action>)
    requires Lawful(c) && Faithful(c, l)
    ensures Faithful(c, Play(c, l, run))
    decreases |run|
  {
    if run != [] {
      match run[0]
      case Write(b) =>
        SentFaithful(c, l, b);
        EveryRunFaithful(c, Sent(c, l, b), run[1..]);
      case Read(k) =>
        ReceivedFaithful(c, l, k);
        EveryRunFaithful(c, Received(c, l, k), run[1..]);
    }
  }

  /** From a fresh connection, whatever the run: what was read is a prefix of what was written, all of it once drained. */
  lemma ReadsAreWhatWasWritten(c: Suite, nonceSize: nat, run: seq<Action>)
    requires Lawful(c)
    ensures var l := Play(c, Begin(nonceSize), run);
            l.read <= l.written && (l.remain == [] && l.inFlight == [] ==> l.read == l.written)
  {
    hide Play;
    EveryRunFaithful(c, Begin(nonceSize), run);
    var l := Play(c, Begin(nonceSize), run);
    assert l.read + l.remain + Flatten(l.inFlight) == l.read + (l.remain + Flatten(l.inFlight));
  }

  // -------- the two ends as the source runs them, in their buffers --------

  lemma TwoIncrements(s: seq<byte>)
    ensures IncrementBy(s, 0) == s && IncrementBy(s, 1) == Increment(s) && IncrementBy(s, 2) == Increment(Increment(s))
  {
    hide Increment;
    assert IncrementBy(s, 1) == Increment(IncrementBy(s, 0));
  }

  /** What a copy from a data source can fail with. */
  datatype CopyError = WriteFailed | SourceFailed

  /** The reads of a source that yielded bytes. */
  function Solid(got: seq<seq<byte>>): (r: seq<seq<byte>>)
    ensures forall d :: d in r ==> d in got && d != []
    ensures |r| <= |got|
  {
    if got == [] then []
    else
      var n := |got| - 1;
      Solid(got[..n]) + if got[n] == [] then [] else [got[n]]
  }

  lemma {:induction false} SolidPrefix(got: seq<seq<byte>>, i: nat)
    requires i <= |got|
    ensures Solid(got[..i]) <= Solid(got)
    decreases |got| - i
  {
    if i == |got| {
      assert got[..i] == got;
    } else {
      SolidPrefix(got, i + 1);
      assert got[..i + 1][..i] == got[..i];
    }
  }

  lemma SolidNext(got: seq<seq<byte>>, i: nat)
    requires i < |got|
    ensures Solid(got[..i + 1]) == Solid(got[..i]) + if got[i] == [] then [] else [got[i]]
  {
    assert got[..i + 1][..i] == got[..i];
  }

  /** Leaving out reads that yield nothing leaves out no bytes. */
  lemma {:induction false} SolidFlat(got: seq<seq<byte>>)
    ensures Flatten(Solid(got)) == Flatten(got)
  {
    if got != [] {
      var n := |got| - 1;
      SolidFlat(got[..n]);
      FlatAppend(got[..n], got[n]);
      FlatAppend(Solid(got[..n]), got[n]);
      assert got[..n] + [got[n]] == got;
      assert Solid(got[..n]) + [] == Solid(got[..n]);
    }
  }

  lemma {:induction false} FlatAppend(a: seq<seq<byte>>, d: seq<byte>)
    ensures Flatten(a + [d]) == Flatten(a) + d
  {
    if a == [] {
      assert [d][1..] == [] && [] + [d] == [d];
    } else {
      assert (a + [d])[1..] == a[1..] + [d];
      FlatAppend(a[1..], d);
    }
  }

  lemma {:induction false} SolidChunks(chunks: seq<seq<byte>>)
    requires forall d :: d in chunks ==> d != []
    ensures Solid(chunks) == chunks
  {
    if chunks != [] {
      var n := |chunks| - 1;
      assert chunks == chunks[..n] + [chunks[n]];
      assert forall d :: d in chunks[..n] ==> d in chunks;
      assert chunks[n] in chunks;
      SolidChunks(chunks[..n]);
    }
  }

  class StreamWriter {
    const c: Suite
    const buf: array<byte>
    const nonce: array<byte>
    var wire: seq<byte>
    ghost var used: seq<seq<byte>>   // the nonces of all sealings so far

    ghost function Zero(): seq<byte>
      reads this
    {
      seq(nonce.Length, _ => 0 as byte)
    }

    /** Over every run of writes, failed ones included, the k-th sealing has used the k-th value of the counter. */
    ghost predicate Valid()
      reads this, nonce
    {
      && Lawful(c) && buf.Length == 2 + c.overhead + MAX_TCP_BUFFER_SIZE + c.overhead && buf != nonce
      && used == Nonces(Zero(), |used|) && nonce[..] == IncrementBy(Zero(), |used|)
    }

    constructor (c: Suite, nonceSize: nat)
      requires Lawful(c)
      ensures Valid() && fresh(buf) && fresh(nonce) && this.c == c && wire == [] && used == []
      ensures nonce[..] == Begin(nonceSize).writerNonce && forall i :: 0 <= i < nonceSize ==> nonce[i] == 0
    {
      this.c := c;
      buf := new byte[2 + c.overhead + MAX_TCP_BUFFER_SIZE + c.overhead](_ => 0);
      nonce := new byte[nonceSize](_ => 0);
      wire, used := [], [];
    }

    /** Until 256^n of them, no two sealings of a writer share a nonce, whatever was written. */
    lemma NeverTwice(i: nat, j: nat)
      requires Valid() && i < j < |used| <= Pow256(nonce.Length)
      ensures used[i] != used[j]
    {
      hide Nonces, Pow256;
      NonceOnce(Zero(), |used|, i, j);
    }

    /** Seals n bytes of the buffer in place, under the next nonce. */
    method SealPart(at: nat, n: nat)
      requires Valid() && at + n + c.overhead <= buf.Length
      modifies this`used, buf, nonce
      ensures Valid() && used == old(used) + [old(nonce[..])]
      ensures buf[at..at + n + c.overhead] == c.seal(old(nonce[..]), old(buf[at..at + n]))
      ensures buf[..at] == old(buf[..at]) && buf[at + n + c.overhead..] == old(buf[at + n + c.overhead..])
      ensures nonce[..] == Increment(old(nonce[..]))
    {
      hide Increment, IncrementBy, Nonces;
      var part := c.seal(nonce[..], buf[at..at + n]);
      Put(buf, at, part);
      OneMoreNonce(Zero(), |used|);
      used := used + [nonce[..]];
      IncrementInPlace(nonce);
    }

    static lemma SameBehind(a: seq<byte>, b: seq<byte>, at: nat, n: nat)
      requires at + n <= |a| == |b| && a[at..] == b[at..]
      ensures a[at..at + n] == b[at..at + n]
    {
      assert a[at..at + n] == a[at..][..n] && b[at..at + n] == b[at..][..n];
    }

    /**
     Seals one chunk in place: the length and its tag fill the bytes in front of the payload, so neither
     sealing overwrites what the other still needs.
     */
    method SealChunk(data: seq<byte>) returns (frame: seq<byte>)
      requires Valid() && 1 <= |data| <= MAX_TCP_BUFFER_SIZE
      modifies this`used, buf, nonce
      ensures Valid() && |used| == |old(used)| + 2
      ensures frame == SealedFrame(c, old(nonce[..]), data)
      ensures frame == c.seal(old(nonce[..]), [|data| / 256, |data| % 256]) + c.seal(Increment(old(nonce[..])), data)
      ensures nonce[..] == IncrementBy(old(nonce[..]), 2)
    {
      hide Increment, IncrementBy, Lawful, Nonces;
      var at, n := 2 + c.overhead, |data|;
      TwoIncrements(nonce[..]);
      Load(data);
      ghost var loaded := buf[..];
      SealPart(0, 2);
      SameBehind(loaded, buf[..], at, n);
      ghost var head := buf[..at];
      assert head == buf[0..0 + 2 + c.overhead];
      SealPart(at, n);
      frame := buf[..at + n + c.overhead];
      assert frame == head + buf[at..at + n + c.overhead];
    }

    /** The payload goes where its sealed length will leave off, and the length in front. */
    method Load(data: seq<byte>)
      requires Valid() && 1 <= |data| <= MAX_TCP_BUFFER_SIZE
      modifies buf
      ensures Valid() && buf[0..0 + 2] == Be16(|data| % 0x1_0000) && buf[2 + c.overhead..2 + c.overhead + |data|] == data
    {
      hide IncrementBy, Lawful, Nonces;
      var at, n := 2 + c.overhead, |data|;
      Put(buf, at, data);
      assert buf[2..][c.overhead..][..n] == buf[at..at + n];
      Put(buf, 0, Be16(n % 0x1_0000));
      assert buf[at..][..n] == buf[0 + 2..][c.overhead..][..n];
    }

    /**
     Sends what a source yields, read by read, until it ends or fails, or the socket refuses a frame (the one
     after `limit` writes). The bytes counted include those of a frame that was refused.
     */
    method ReadFrom(got: seq<seq<byte>>, clean: bool, limit: nat) returns (n: nat, err: Option<CopyError>)
      requires Valid() && forall d :: d in got ==> |d| <= MAX_TCP_BUFFER_SIZE
      modifies this`wire, this`used, buf, nonce
      ensures Valid()
      ensures var chunks := Solid(got);
              && err == (if limit < |chunks| then Some(WriteFailed) else if clean then None else Some(SourceFailed))
              && n == |Flatten(chunks[..Min(limit + 1, |chunks|)])|
              && wire == old(wire) + Frames(c, old(nonce[..]), chunks[..Min(limit, |chunks|)])
              && nonce[..] == IncrementBy(old(nonce[..]), 2 * Min(limit + 1, |chunks|))
              && |used| == |old(used)| + 2 * Min(limit + 1, |chunks|)
    {
      hide Increment, IncrementBy, SealedFrame, Frames, Lawful, Flatten, Nonces, Solid;
      ghost var first := nonce[..];
      ghost var chunks := Solid(got[..0]);
      n := 0;
      var writes := 0;
      NoFrames(c, first);
      assert got[..0] == [] && Solid([]) == [] && |Flatten([])| == 0 by { NoReads(); }
      for i := 0 to |got|
        invariant Valid() && chunks == Solid(got[..i]) && |chunks| == writes <= limit
        invariant n == |Flatten(chunks)| && |used| == |old(used)| + 2 * |chunks|
        invariant wire == old(wire) + Frames(c, first, chunks) && nonce[..] == IncrementBy(first, 2 * |chunks|)
      {
        SolidNext(got, i);
        if |got[i]| > 0 {
          n := n + |got[i]|;
          var frame := SealChunk(got[i]);
          FramesAppend(c, first, chunks, got[i]);
          if writes == limit {
            SolidPrefix(got, i + 1);
            ghost var all := Solid(got);
            assert all[..limit + 1] == chunks + [got[i]] && all[..limit] == chunks;
            return n, Some(WriteFailed);
          }
          wire, writes := wire + frame, writes + 1;
          chunks := chunks + [got[i]];
        } else {
          assert chunks + [] == chunks;
        }
      }
      assert got[..|got|] == got && chunks[..|chunks|] == chunks;
      return n, if clean then None else Some(SourceFailed);
    }

    /** Writes b, piece by piece, up to the first frame the socket refuses. */
    method WriteBytes(b: seq<byte>, limit: nat) returns (n: nat, failed: bool)
      requires Valid()
      modifies this`wire, this`used, buf, nonce
      ensures Valid()
      ensures var chunks := Chunks(b, MAX_TCP_BUFFER_SIZE);
              && failed == (limit < |chunks|)
              && n == (if failed then |Flatten(chunks[..limit + 1])| else |b|)
              && wire == old(wire) + Frames(c, old(nonce[..]), chunks[..Min(limit, |chunks|)])
              && nonce[..] == IncrementBy(old(nonce[..]), 2 * Min(limit + 1, |chunks|))
              && |used| == |old(used)| + 2 * Min(limit + 1, |chunks|)
    {
      hide Increment, IncrementBy, SealedFrame, Frames, Lawful, Flatten, Nonces, Solid, Chunks;
      ChunksSized(b, MAX_TCP_BUFFER_SIZE);
      var chunks := Chunks(b, MAX_TCP_BUFFER_SIZE);
      SolidChunks(chunks);
      var err;
      n, err := ReadFrom(chunks, true, limit);
      failed := err.Some?;
      assert chunks[..|chunks|] == chunks;
    }
  }

  lemma NoReads()
    ensures Solid([]) == [] && Flatten([]) == []
  {
  }

  lemma FramesAppend(c: Suite, nonce: seq<byte>, chunks: seq<seq<byte>>, data: seq<byte>)
    ensures Frames(c, nonce, chunks + [data]) == Frames(c, nonce, chunks) + SealedFrame(c, IncrementBy(nonce, 2 * |chunks|), data)
    ensures Flatten(chunks + [data]) == Flatten(chunks) + data
    ensures IncrementBy(IncrementBy(nonce, 2 * |chunks|), 2) == IncrementBy(nonce, 2 * |chunks + [data]|)
  {
    hide Increment, SealedFrame, IncrementBy;
    FramesJoin(c, nonce, chunks, [data]);
    IncrementByJoins(nonce, 2 * |chunks|, 2);
    assert 2 * |chunks| + 2 == 2 * |chunks + [data]|;
    assert [data][1..] == [];
  }

  lemma NoFrames(c: Suite, nonce: seq<byte>)
    ensures Frames(c, nonce, []) == [] && IncrementBy(nonce, 0) == nonce
  {
  }

  class StreamReader {
    const c: Suite
    const buf: array<byte>
    const nonce: array<byte>
    var lo: nat              // the left-over bytes are buf[lo..hi]
    var hi: nat
    var src: seq<byte>       // what the connection will still deliver before it ends

    ghost predicate Valid()
      reads this
    {
      Lawful(c) && buf.Length == MAX_TCP_BUFFER_SIZE + c.overhead && buf != nonce && lo <= hi <= MAX_TCP_BUFFER_SIZE
    }

    function Remain(): seq<byte>
      requires Valid()
      reads this, buf
    {
      buf[lo..hi]
    }

    constructor (c: Suite, nonceSize: nat)
      requires Lawful(c)
      ensures Valid() && fresh(buf) && fresh(nonce) && this.c == c && src == [] && Remain() == []
      ensures nonce[..] == Begin(nonceSize).readerNonce && forall i :: 0 <= i < nonceSize ==> nonce[i] == 0
    {
      this.c := c;
      buf := new byte[MAX_TCP_BUFFER_SIZE + c.overhead](_ => 0);
      nonce := new byte[nonceSize](_ => 0);
      lo, hi, src := 0, 0, [];
    }

    /** Opens the next part of n plain bytes into the front of the buffer; fails if it is cut short or forged. */
    method OpenPart(n: nat) returns (err: Option<Failure>)
      requires Valid() && n <= MAX_TCP_BUFFER_SIZE
      modifies this`src, buf, nonce
      ensures err == Some(Short) ==> src == [] && nonce[..] == old(nonce[..])
      ensures err == None || err == Some(Short) || err == Some(Forged)
      ensures err == Some(Short) <==> |old(src)| < n + c.overhead
      ensures |old(src)| >= n + c.overhead ==>
                && nonce[..] == Increment(old(nonce[..])) && src == old(src)[n + c.overhead..]
                && match c.open(old(nonce[..]), old(src)[..n + c.overhead])
                   case None => err == Some(Forged)
                   case Some(plain) => err == None && |plain| == n && buf[..n] == plain
    {
      var m := n + c.overhead;
      if |src| < m {
        src := [];
        return Some(Short);
      }
      Put(buf, 0, src[..m]);
      src := src[m..];
      assert buf[..m] == old(src)[..m];
      var plain := c.open(nonce[..], buf[..m]);
      IncrementInPlace(nonce);
      if plain == None {
        return Some(Forged);
      }
      Put(buf, 0, plain.value);
      assert buf[..n] == plain.value;
      return None;
    }

    /** Reads one frame into the buffer. */
    method ReadFrame() returns (size: nat, err: Option<Failure>)
      requires Valid()
      modifies this`src, buf, nonce
      ensures err == None ==> TakeFrame(c, old(nonce[..]), old(src)).Payload?
      ensures match TakeFrame(c, old(nonce[..]), old(src))
              case Payload(data, rest) =>
                && err == None && size == |data| <= MAX_TCP_BUFFER_SIZE && buf[..size] == data
                && src == rest && nonce[..] == IncrementBy(old(nonce[..]), 2)
              case Failed(e, rest, uses) =>
                err == Some(e) && src == rest && nonce[..] == IncrementBy(old(nonce[..]), uses)
    {
      hide Increment, IncrementBy;
      TwoIncrements(nonce[..]);
      err := OpenPart(2);
      if err.Some? {
        return 0, err;
      }
      size := 256 * (buf[0] as int) + (buf[1] as int);
      assert size == FromBe16(buf[..2]);
      if size > MAX_TCP_BUFFER_SIZE + c.overhead {
        return 0, Some(TooLarge);
      }
      if size > MAX_TCP_BUFFER_SIZE {
        return 0, Some(OutOfBuffer);
      }
      err := OpenPart(size);
    }

    /** Reads up to `capacity` bytes, first from what the last frame left over. */
    method ReadBytes(capacity: nat) returns (out: seq<byte>, err: Option<Failure>)
      requires Valid()
      modifies this, buf, nonce
      ensures Valid()
      ensures old(Remain()) != [] ==>
                && err == None && out + Remain() == old(Remain()) && |out| == Min(capacity, |old(Remain())|)
                && src == old(src) && nonce[..] == old(nonce[..])
      ensures old(Remain()) == [] ==>
                match TakeFrame(c, old(nonce[..]), old(src))
                case Payload(data, rest) =>
                  && err == None && out + Remain() == data && |out| == Min(capacity, |data|)
                  && src == rest && nonce[..] == IncrementBy(old(nonce[..]), 2)
                case Failed(e, rest, uses) =>
                  && err == Some(e) && out == [] && Remain() == []
                  && src == rest && nonce[..] == IncrementBy(old(nonce[..]), uses)
    {
      hide Increment, IncrementBy, TakeFrame;
      if hi - lo > 0 {
        var n := Min(capacity, hi - lo);
        out := buf[lo..lo + n];
        lo := lo + n;
        assert out + Remain() == old(Remain());
        return out, None;
      }
      var size;
      size, err := ReadFrame();
      if err.Some? {
        return [], err;
      }
      var m := Min(capacity, size);
      out := buf[..m];
      lo, hi := m, size;
      assert out + Remain() == buf[..size];
    }
  }
}

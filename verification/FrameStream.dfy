/**
 Incremental decoding of a framed byte stream.

 The connection wrappers of the proxy all read the same way: bytes arrive in arbitrary pieces, are
 appended to a pending buffer, and a loop takes whole frames off its front until it meets an incomplete
 one. A `Parser` is one turn of such a loop. It may change its state even when it finds the frame
 incomplete, so decoders are compared up to an equivalence of states.
 */
module FrameStream {
  import opened Common
  import opened Bytes

  datatype Error = WrongMac | WrongLength | WrongChecksum | WrongMagic | OutOfRange

  /** One turn of a decoding loop: wait for more bytes, take one frame, or give up. */
  datatype Turn<S> =
    | More(state: S)
    | Frame(size: nat, payload: seq<byte>, state: S)
    | Fail(error: Error, state: S)

  /** A verdict reported apart from the state it goes with. */
  ghost function WithState<S>(turn: Turn<()>, s: S): Turn<S> {
    match turn
    case More(_) => More(s)
    case Frame(n, payload, _) => Frame(n, payload, s)
    case Fail(e, _) => Fail(e, s)
  }

  type Parser<!S> = (S, seq<byte>) -> Turn<S>

  /** Everything a run of the loop leaves behind. */
  datatype Run<S> = Run(state: S, out: seq<byte>, rest: seq<byte>, error: Option<Error>)

  ghost predicate Advances<S(!new)>(p: Parser<S>) {
    forall s, a :: p(s, a).Frame? ==> 0 < p(s, a).size <= |a|
  }

  ghost predicate Equivalence<S(!new)>(eq: (S, S) -> bool) {
    && (forall s :: eq(s, s))
    && (forall s, t :: eq(s, t) ==> eq(t, s))
    && (forall s, t, u :: eq(s, t) && eq(t, u) ==> eq(s, u))
  }

  /** The same verdict, with equivalent states. */
  ghost predicate SameTurn<S>(eq: (S, S) -> bool, x: Turn<S>, y: Turn<S>) {
    match (x, y)
    case (More(s), More(t)) => eq(s, t)
    case (Frame(m, u, s), Frame(n, v, t)) => m == n && u == v && eq(s, t)
    case (Fail(e, s), Fail(f, t)) => e == f && eq(s, t)
    case _ => false
  }

  ghost predicate Respects<S(!new)>(p: Parser<S>, eq: (S, S) -> bool) {
    forall s, t, a :: eq(s, t) ==> SameTurn(eq, p(s, a), p(t, a))
  }

  /** A verdict other than "more" stands however many bytes follow, and waiting changes nothing observable. */
  ghost predicate Stable<S(!new)>(p: Parser<S>, eq: (S, S) -> bool) {
    forall s, a, b :: a <= b ==>
      if p(s, a).More? then eq(p(s, a).state, s) else SameTurn(eq, p(s, a), p(s, b))
  }

  ghost predicate Incremental<S(!new)>(p: Parser<S>, eq: (S, S) -> bool) {
    Advances(p) && Equivalence(eq) && Respects(p, eq) && Stable(p, eq) && forall s :: p(s, []).More?
  }

  /** The decoding loop over the bytes at hand. */
  ghost function Loop<S(!new)>(p: Parser<S>, s: S, src: seq<byte>): Run<S>
    requires Advances(p)
    decreases |src|
  {
    match p(s, src)
    case More(t) => Run(t, [], src, None)
    case Fail(e, t) => Run(t, [], [], Some(e))
    case Frame(n, payload, t) =>
      assert n == p(s, src).size;
      Then(payload, Loop(p, t, src[n..]))
  }

  /** What decoding leaves: after an error nothing, otherwise the end of what it was given, on which it waits. */
  lemma {:induction false} LoopRest<S(!new)>(p: Parser<S>, s: S, src: seq<byte>)
    requires Advances(p)
    ensures var r := Loop(p, s, src);
            && (r.error.Some? ==> r.rest == [])
            && (r.error == None ==> |r.rest| <= |src| && r.rest == src[|src| - |r.rest|..])
    decreases |src|
  {
    LoopTurn(p, s, src);
    var turn := p(s, src);
    if turn.Frame? {
      LoopRest(p, turn.state, src[turn.size..]);
    }
  }

  /** One turn of the loop. */
  lemma LoopTurn<S(!new)>(p: Parser<S>, s: S, src: seq<byte>)
    requires Advances(p)
    ensures var turn := p(s, src);
            && (turn.More? ==> Loop(p, s, src) == Run(turn.state, [], src, None))
            && (turn.Fail? ==> Loop(p, s, src) == Run(turn.state, [], [], Some(turn.error)))
            && (turn.Frame? ==>
                  turn.size <= |src| && Loop(p, s, src) == Then(turn.payload, Loop(p, turn.state, src[turn.size..])))
  {
    assert p(s, src).Frame? ==> p(s, src).size <= |src|;
  }

  /** A run that comes after some output. */
  ghost function Then<S>(out: seq<byte>, run: Run<S>): Run<S> {
    run.(out := out + run.out)
  }

  lemma ThenJoins<S>(a: seq<byte>, b: seq<byte>, run: Run<S>)
    ensures Then(a, Then(b, run)) == Then(a + b, run)
  {
    assert a + (b + run.out) == (a + b) + run.out;
  }

  ghost predicate SameRun<S>(eq: (S, S) -> bool, x: Run<S>, y: Run<S>) {
    eq(x.state, y.state) && x.out == y.out && x.rest == y.rest && x.error == y.error
  }

  lemma SameRunTransitive<S(!new)>(eq: (S, S) -> bool, x: Run<S>, y: Run<S>, z: Run<S>)
    requires Equivalence(eq) && SameRun(eq, x, y) && SameRun(eq, y, z)
    ensures SameRun(eq, x, z)
  {
  }

  /** Equivalent states decode alike. */
  lemma {:induction false} LoopRespects<S(!new)>(p: Parser<S>, eq: (S, S) -> bool, s: S, t: S, src: seq<byte>)
    requires Incremental(p, eq) && eq(s, t)
    ensures SameRun(eq, Loop(p, s, src), Loop(p, t, src))
    decreases |src|
  {
    assert SameTurn(eq, p(s, src), p(t, src));
    if p(s, src).Frame? {
      LoopRespects(p, eq, p(s, src).state, p(t, src).state, src[p(s, src).size..]);
    }
  }

  /** Joins the run over the first piece to the run over what it left plus the second piece. */
  ghost function Joined<S(!new)>(p: Parser<S>, first: Run<S>, more: seq<byte>): Run<S>
    requires Advances(p)
  {
    if first.error.Some? then first
    else Then(first.out, Loop(p, first.state, first.rest + more))
  }

  /** Where the stream is cut does not matter: decoding `a` and then `b` is decoding `a + b`. */
  lemma {:induction false} SplitAnywhere<S(!new)>(p: Parser<S>, eq: (S, S) -> bool, s: S, a: seq<byte>, b: seq<byte>)
    requires Incremental(p, eq)
    ensures SameRun(eq, Joined(p, Loop(p, s, a), b), Loop(p, s, a + b))
    decreases |a|
  {
    var x, y := p(s, a), p(s, a + b);
    assert a <= a + b;
    if x.More? {
      LoopRespects(p, eq, x.state, s, a + b);
    } else {
      assert SameTurn(eq, x, y);
      if x.Frame? {
        var n := x.size;
        assert (a + b)[n..] == a[n..] + b;
        SplitAnywhere(p, eq, x.state, a[n..], b);
        LoopRespects(p, eq, x.state, y.state, a[n..] + b);
        JoinedThen(p, x.payload, Loop(p, x.state, a[n..]), b);
        SameRunTransitive(eq, Joined(p, Loop(p, x.state, a[n..]), b), Loop(p, x.state, a[n..] + b), Loop(p, y.state, a[n..] + b));
      }
    }
  }

  lemma JoinedThen<S(!new)>(p: Parser<S>, payload: seq<byte>, tail: Run<S>, b: seq<byte>)
    requires Advances(p)
    ensures Joined(p, Then(payload, tail), b) == Then(payload, Joined(p, tail, b))
  {
    if tail.error == None {
      ThenJoins(payload, tail.out, Loop(p, tail.state, tail.rest + b));
    }
  }

  function Flatten(pieces: seq<seq<byte>>): seq<byte> {
    if pieces == [] then [] else pieces[0] + Flatten(pieces[1..])
  }

  /** Cutting a byte string into pieces of a maximal size, as the encoders do. */
  function Chunks(b: seq<byte>, max: nat): (r: seq<seq<byte>>)
    requires max > 0
    ensures Flatten(r) == b
  {
    if b == [] then [] else if |b| <= max then [b] else [b[..max]] + Chunks(b[max..], max)
  }

  lemma {:induction false} ChunksSized(b: seq<byte>, max: nat)
    requires max > 0
    ensures forall d :: d in Chunks(b, max) ==> 1 <= |d| <= max
    decreases |b|
  {
    if |b| > max {
      ChunksSized(b[max..], max);
    }
  }

  lemma ChunksAt(all: seq<byte>, i: nat, max: nat)
    requires i <= |all| && max > 0
    ensures |all| - i > max ==> Chunks(all[i..], max) == [all[i..i + max]] + Chunks(all[i + max..], max)
    ensures 0 < |all| - i <= max ==> Chunks(all[i..], max) == [all[i..]] + []
    ensures |all| == i ==> Chunks(all[i..], max) == []
  {
    if |all| - i > max {
      assert all[i..][max..] == all[i + max..] && all[i..][..max] == all[i..i + max];
    }
  }

  /** Decoding a stream piece by piece, as the bytes arrive; a run that failed stays as it is. */
  ghost function Feed<S(!new)>(p: Parser<S>, run: Run<S>, pieces: seq<seq<byte>>): Run<S>
    requires Advances(p)
    decreases |pieces|
  {
    if pieces == [] then run else Feed(p, Joined(p, run, pieces[0]), pieces[1..])
  }

  ghost function Start<S>(s: S): Run<S> {
    Run(s, [], [], None)
  }

  lemma {:induction false} FeedRespects<S(!new)>(p: Parser<S>, eq: (S, S) -> bool, x: Run<S>, y: Run<S>, pieces: seq<seq<byte>>)
    requires Incremental(p, eq) && SameRun(eq, x, y)
    ensures SameRun(eq, Feed(p, x, pieces), Feed(p, y, pieces))
    decreases |pieces|
  {
    if pieces != [] {
      LoopRespects(p, eq, x.state, y.state, x.rest + pieces[0]);
      FeedRespects(p, eq, Joined(p, x, pieces[0]), Joined(p, y, pieces[0]), pieces[1..]);
    }
  }

  lemma {:induction false} FeedContinues<S(!new)>(p: Parser<S>, eq: (S, S) -> bool, s: S, a: seq<byte>, pieces: seq<seq<byte>>)
    requires Incremental(p, eq)
    ensures SameRun(eq, Feed(p, Loop(p, s, a), pieces), Loop(p, s, a + Flatten(pieces)))
    decreases |pieces|
  {
    if pieces == [] {
      assert a + Flatten(pieces) == a;
      assert eq(Loop(p, s, a).state, Loop(p, s, a).state);
    } else {
      var b := a + pieces[0];
      assert b + Flatten(pieces[1..]) == a + Flatten(pieces);
      SplitAnywhere(p, eq, s, a, pieces[0]);
      FeedRespects(p, eq, Joined(p, Loop(p, s, a), pieces[0]), Loop(p, s, b), pieces[1..]);
      FeedContinues(p, eq, s, b, pieces[1..]);
      SameRunTransitive(eq, Feed(p, Loop(p, s, a), pieces), Feed(p, Loop(p, s, b), pieces[1..]), Loop(p, s, b + Flatten(pieces[1..])));
    }
  }

  /** Whatever the segmentation, feeding the pieces decodes the stream they make up. */
  lemma FeedIsLoop<S(!new)>(p: Parser<S>, eq: (S, S) -> bool, s: S, pieces: seq<seq<byte>>)
    requires Incremental(p, eq)
    ensures SameRun(eq, Feed(p, Start(s), pieces), Loop(p, s, Flatten(pieces)))
  {
    FeedContinues(p, eq, s, [], pieces);
    assert [] + Flatten(pieces) == Flatten(pieces);
    var none: seq<byte> := [];
    assert none <= none && p(s, none).More?;
    FeedRespects(p, eq, Start(s), Loop(p, s, none), pieces);
  }

  // -------- the connection wrapper --------

  /** After these failures the decoders hand later bytes through unchecked. */
  predicate TurnsRaw(e: Error) {
    e == WrongLength || e == WrongChecksum
  }

  /** Runs the decoding loop over the bytes at hand. */
  method Drain<S(!new)>(p: Parser<S>, s: S, src: seq<byte>) returns (state: S, out: seq<byte>, rest: seq<byte>, err: Option<Error>)
    requires Advances(p)
    ensures Run(state, out, rest, err) == Loop(p, s, src) && (err.Some? ==> rest == [])
  {
    state, out, rest, err := s, [], src, None;
    while true
      invariant Then(out, Loop(p, state, rest)) == Loop(p, s, src)
      decreases |rest|
    {
      match p(state, rest)
      case More(t) =>
        return t, out, rest, None;
      case Fail(e, t) =>
        return t, out, [], Some(e);
      case Frame(n, payload, t) =>
        assert n == p(state, rest).size;
        ThenJoins(out, payload, Loop(p, t, rest[n..]));
        state, out, rest := t, out + payload, rest[n..];
    }
  }

  /** Reads whole application bytes off a stream that arrives in pieces. */
  class Conn<S(!new)> {
    const p: Parser<S>
    ghost const eq: (S, S) -> bool
    ghost const origin: S
    var state: S
    var raw: bool
    var decoded: seq<byte>
    var underDecoded: seq<byte>
    ghost var received: seq<byte>   // everything the socket has returned
    ghost var delivered: seq<byte>  // everything the reader has been given
    ghost var failed: bool          // some read has reported an error

    ghost predicate Valid()
      reads this
    {
      && Incremental(p, eq)
      && (!failed ==>
            var run := Loop(p, origin, received);
            && !raw && run.error == None && run.out == delivered + decoded
            && run.rest == underDecoded && eq(run.state, state))
    }

    constructor (p: Parser<S>, ghost eq: (S, S) -> bool, s: S)
      requires Incremental(p, eq)
      ensures Valid() && !failed && received == [] && delivered == []
      ensures this.p == p && this.eq == eq && origin == s
    {
      this.p, this.eq, this.origin := p, eq, s;
      state, raw, decoded, underDecoded := s, false, [], [];
      received, delivered, failed := [], [], false;
      var none: seq<byte> := [];
      assert none <= none && p(s, none).More?;
    }

    /** Appends what arrived to the pending bytes and decodes as far as they go. */
    method Receive(arrived: seq<byte>) returns (err: Option<Error>)
      requires Valid()
      modifies this
      ensures Valid() && delivered == old(delivered) && received == old(received) + arrived
      ensures failed == (old(failed) || err.Some?)
      ensures raw == (old(raw) || err == Some(WrongLength) || err == Some(WrongChecksum))
      ensures old(raw) ==> err == None && decoded == old(decoded) + old(underDecoded) + arrived && underDecoded == []
      ensures err.Some? ==> underDecoded == []
      ensures !old(failed) ==> err == Loop(p, origin, received).error
    {
      received := received + arrived;
      underDecoded := underDecoded + arrived;
      if raw {
        assert decoded + (old(underDecoded) + arrived) == decoded + old(underDecoded) + arrived;
        decoded, underDecoded := decoded + underDecoded, [];
        return None;
      }
      ghost var before := Loop(p, origin, old(received));
      if !failed {
        SplitAnywhere(p, eq, origin, old(received), arrived);
        LoopRespects(p, eq, before.state, state, underDecoded);
      }
      var out;
      state, out, underDecoded, err := Drain(p, state, underDecoded);
      raw := err.Some? && TurnsRaw(err.value);
      assert delivered + (decoded + out) == (delivered + decoded) + out;
      decoded := decoded + out;
      failed := failed || err.Some?;
    }

    /**
     One read into a buffer of the given capacity; `arrived` is what the socket would return. In every run
     without an error, what has been delivered and what is held decoded are together the decoding of
     everything received, and an error is reported exactly when that decoding fails.
     */
    method Read(capacity: nat, arrived: seq<byte>) returns (b: seq<byte>, err: Option<Error>)
      requires Valid()
      modifies this
      ensures Valid() && |b| <= capacity
      ensures delivered == old(delivered) + b
      ensures received == if old(decoded) != [] then old(received) else old(received) + arrived
      ensures failed == (old(failed) || err.Some?)
      ensures !old(failed) ==> err == Loop(p, origin, received).error
      ensures old(decoded) != [] ==> err == None && b + decoded == old(decoded)
      ensures err.Some? ==> b == []
      ensures err == None ==> decoded == [] || |b| == capacity
    {
      hide Loop, Incremental;
      err := None;
      if decoded == [] {
        err := Receive(arrived);
        if err.Some? {
          assert delivered + [] == delivered;
          return [], err;
        }
      }
      var n := if |decoded| < capacity then |decoded| else capacity;
      b := decoded[..n];
      assert delivered + decoded == (delivered + b) + decoded[n..];
      assert b + decoded[n..] == decoded;
      decoded := decoded[n..];
      delivered := delivered + b;
    }
  }
}

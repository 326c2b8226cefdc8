/**
 The tls1.2_ticket_auth obfuscation layer (ssr/obfs/tls1.2_ticket_auth.go): application bytes travel in
 TLS-style records, and those written before the simulated handshake is over wait in a send buffer.
 */
module TlsTicket {
  import opened Common
  import opened Bytes
  import opened FrameStream

  // -------- records --------

  /** An application record: type 23, version 3.3, the length most significant byte first, and the bytes. */
  function Record(data: seq<byte>): (r: seq<byte>)
    ensures |r| == 5 + |data| && r[0] == 23 && r[1] == 3 && r[2] == 3
    ensures 0x100 * r[3] as int + r[4] as int == |data| % 0x1_0000 && r[5..] == data
  {
    [0x17, 3, 3] + Be16(|data| % 0x1_0000) + data
  }

  function Records(payloads: seq<seq<byte>>): seq<byte> {
    if payloads == [] then [] else Record(payloads[0]) + Records(payloads[1..])
  }

  function Parse(s: (), src: seq<byte>): Turn<()> {
    if |src| <= 5 then More(())
    else if src[..3] != [0x17, 3, 3] then Fail(WrongMagic, ())
    else
      var size := FromBe16(src[3..5]);
      if |src| < 5 + size then More(()) else Frame(5 + size, src[5..5 + size], ())
  }

  /** What reading makes of the bytes at hand, if there are more than five: only records of type 23, version 3.3. */
  lemma ReadsIff(src: seq<byte>)
    requires |src| > 5
    ensures var size := 0x100 * src[3] as int + src[4] as int;
            var application := src[0] == 23 && src[1] == 3 && src[2] == 3;
            && (!application <==> Parse((), src) == Fail(WrongMagic, ()))
            && (application && |src| < 5 + size <==> Parse((), src).More?)
            && (application && |src| >= 5 + size ==> Parse((), src) == Frame(5 + size, src[5..5 + size], ()))
  {
    assert src[..3] == [src[0], src[1], src[2]] && src[3..5] == [src[3], src[4]];
  }

  predicate Same(a: (), b: ()) {
    true
  }

  lemma TlsIncremental()
    ensures Incremental(Parse, Same)
  {
    forall s, a: seq<byte>, b: seq<byte> | a <= b
      ensures if Parse(s, a).More? then Same(Parse(s, a).state, s) else SameTurn(Same, Parse(s, a), Parse(s, b))
    {
      if !Parse(s, a).More? {
        assert a[..3] == b[..3] && a[3..5] == b[3..5];
        var size := FromBe16(a[3..5]);
        assert size + 5 <= |a| ==> a[5..5 + size] == b[5..5 + size];
      }
    }
  }

  /** A record is read back as written exactly when its length fits the 16-bit length field. */
  lemma RecordParses(data: seq<byte>, tail: seq<byte>)
    requires data != []
    ensures Parse((), Record(data) + tail) == Frame(5 + |data|, data, ()) <==> |data| < 0x1_0000
  {
    var src := Record(data) + tail;
    assert src[..3] == [0x17, 3, 3] && src[3..5] == Be16(|data| % 0x1_0000);
    assert src[5..5 + |data|] == data;
  }

  predicate Writable(payloads: seq<seq<byte>>) {
    forall i :: 0 <= i < |payloads| ==> 0 < |payloads[i]| < 0x1_0000
  }

  lemma {:induction false} RecordsDecode(payloads: seq<seq<byte>>)
    requires Writable(payloads)
    ensures Incremental(Parse, Same)
    ensures Loop(Parse, (), Records(payloads)) == Run((), Flatten(payloads), [], None)
  {
    TlsIncremental();
    if payloads != [] {
      var tail := Records(payloads[1..]);
      RecordParses(payloads[0], tail);
      assert (Record(payloads[0]) + tail)[5 + |payloads[0]|..] == tail;
      RecordsDecode(payloads[1..]);
    }
  }

  /** Any segmentation of the records gives the payload bytes back, in order and complete. */
  lemma RecordsRoundTrip(payloads: seq<seq<byte>>, pieces: seq<seq<byte>>)
    requires Writable(payloads) && Flatten(pieces) == Records(payloads)
    ensures Incremental(Parse, Same)
    ensures Feed(Parse, Start(()), pieces) == Run((), Flatten(payloads), [], None)
  {
    hide Loop, Feed, Parse, Records;
    RecordsDecode(payloads);
    FeedIsLoop(Parse, Same, (), pieces);
    var unit := Feed(Parse, Start(()), pieces).state;
    assert unit == ();
  }

  lemma {:induction false} RecordsJoin(a: seq<seq<byte>>, b: seq<seq<byte>>)
    ensures Records(a + b) == Records(a) + Records(b) && Flatten(a + b) == Flatten(a) + Flatten(b)
  {
    hide Record;
    if a == [] {
      assert a + b == b;
    } else {
      assert (a + b)[0] == a[0] && (a + b)[1..] == a[1..] + b;
      RecordsJoin(a[1..], b);
      assert Records(a + b) == Record(a[0]) + (Records(a[1..]) + Records(b));
      assert Flatten(a + b) == a[0] + (Flatten(a[1..]) + Flatten(b));
    }
  }

  lemma RecordsAppend(a: seq<seq<byte>>, data: seq<byte>)
    ensures Records(a + [data]) == Records(a) + Record(data) && Flatten(a + [data]) == Flatten(a) + data
  {
    RecordsJoin(a, [data]);
    assert Records([data]) == Record(data) && Flatten([data]) == data;
  }

  // -------- the connection --------

  type Mac = s: seq<byte> | |s| >= 10 witness [0, 0, 0, 0, 0, 0, 0, 0, 0, 0]

  datatype ReadError = TooShort | BadHmac | Decoding(error: Error)

  /** What a handshake reply is refused for: its length, or either of its two checksums. */
  function Refusal(hmac: seq<byte> -> Mac, reply: seq<byte>): Option<ReadError> {
    var n := |reply|;
    if n < 11 + 32 + 1 + 32 then Some(TooShort)
    else if reply[33..43] != hmac(reply[11..33])[..10] || reply[n - 10..] != hmac(reply[..n - 10])[..10] then Some(BadHmac)
    else None
  }

  /** A reply is accepted exactly if it is long enough and both of its checksums hold. */
  lemma AcceptedIff(hmac: seq<byte> -> Mac, reply: seq<byte>)
    ensures Refusal(hmac, reply) == None <==>
            && |reply| >= 76
            && reply[33..43] == hmac(reply[11..33])[..10]
            && reply[|reply| - 10..] == hmac(reply[..|reply| - 10])[..10]
    ensures Refusal(hmac, reply) == Some(TooShort) <==> |reply| < 76
  {
  }

  /** The records that end the handshake: a change of cipher, and 32 bytes of which the last ten check all before. */
  ghost predicate Finishes(hmac: seq<byte> -> Mac, fin: seq<byte>) {
    && |fin| == 43
    && fin[..11] == [0x14, 3, 3, 0, 1, 1, 0x16, 3, 3, 0, 0x20]
    && fin[33..] == hmac(fin[..33])[..10]
  }

  /** The wire after the handshake has ended: as before, the finishing records, and what was held back. */
  ghost predicate Ended(hmac: seq<byte> -> Mac, before: seq<byte>, held: seq<byte>, after: seq<byte>) {
    && |after| == |before| + 43 + |held|
    && after[..|before|] == before && after[|before| + 43..] == held
    && Finishes(hmac, after[|before|..|before| + 43])
  }

  lemma FinishingRecords(hmac: seq<byte> -> Mac, head: seq<byte>)
    requires |head| == 33 && head[..11] == [0x14, 3, 3, 0, 1, 1, 0x16, 3, 3, 0, 0x20]
    ensures Finishes(hmac, head + hmac(head)[..10])
  {
    assert (head + hmac(head)[..10])[..33] == head;
  }

  lemma Behind(before: seq<byte>, fin: seq<byte>, held: seq<byte>)
    requires |fin| == 43
    ensures var after := before + (fin + held);
            && after[..|before|] == before && after[|before|..|before| + 43] == fin && after[|before| + 43..] == held
            && after == before + fin + held
  {
  }

  lemma NoRecords()
    ensures Records([]) == [] && Flatten([]) == []
  {
  }

  /** Records of at most 4195 bytes, and of at least 100 unless it is the last. */
  ghost predicate Sized(payloads: seq<seq<byte>>, more: bool) {
    forall i :: 0 <= i < |payloads| ==>
      0 < |payloads[i]| <= 4195 && (more || i < |payloads| - 1 ==> |payloads[i]| >= 100)
  }

  lemma SizedMore(payloads: seq<seq<byte>>, data: seq<byte>, more: bool)
    requires Sized(payloads, true) && 0 < |data| <= 4195 && (more ==> |data| >= 100)
    ensures Sized(payloads + [data], more)
  {
  }

  lemma SizedAll(payloads: seq<seq<byte>>, more: bool)
    requires Sized(payloads, more)
    ensures forall i :: 0 <= i < |payloads| ==> 0 < |payloads[i]| <= 4195
    ensures forall i :: 0 <= i < |payloads| - 1 ==> |payloads[i]| >= 100
  {
  }

  lemma NoneSized()
    ensures Sized([], true) && Sized([], false)
  {
  }

  lemma WritableJoins(a: seq<seq<byte>>, b: seq<seq<byte>>)
    requires forall i :: 0 <= i < |b| ==> 0 < |b[i]| <= 4195
    ensures Writable(a) ==> Writable(a + b)
  {
  }

  class TicketConn {
    const hmac: seq<byte> -> Mac
    const random: nat -> nat
    const hello: seq<byte>              // the client hello this connection sends
    var drawn: nat
    var handshakeStatus: int
    var sendBuf: seq<byte>
    var wire: seq<byte>                 // what the socket has accepted
    const reader: Conn<()>

    ghost var opening: seq<byte>        // the handshake bytes that precede the first record
    ghost var sent: seq<seq<byte>>      // payloads of the records on the wire
    ghost var held: seq<seq<byte>>      // payloads of the records in the send buffer
    ghost var written: seq<byte>        // every byte a write has accepted
    ghost var broken: bool              // some socket write has failed
    ghost var oversized: bool           // some write before the end of the handshake was 65536 bytes or more

    /** What precedes the first record: nothing, then the hello, then the hello and the finishing records. */
    ghost predicate Opened(b: seq<byte>)
      reads this`handshakeStatus
    {
      && (handshakeStatus == 0 ==> b == [])
      && (handshakeStatus == 1 ==> b == hello)
      && (handshakeStatus == 8 ==> hello <= b && Finishes(hmac, b[|hello|..]))
    }

    ghost predicate Valid()
      reads this
    {
      && handshakeStatus in {0, 1, 8}
      && sendBuf == Records(held)
      && (handshakeStatus == 8 ==> held == [])
      && (!broken ==> Opened(opening))
      && (!broken ==>
            && Flatten(sent) + Flatten(held) == written
            && wire == opening + Records(sent)
            && (handshakeStatus != 8 ==> sent == []))
      && (!oversized ==> Writable(sent) && Writable(held))
    }

    constructor (hmac: seq<byte> -> Mac, random: nat -> nat, hello: seq<byte>)
      ensures Valid() && written == [] && wire == [] && handshakeStatus == 0 && !broken && !oversized
      ensures fresh(reader) && reader.Valid() && !reader.failed
      ensures reader.p == Parse && reader.eq == Same && reader.received == [] && reader.delivered == []
    {
      TlsIncremental();
      this.hmac, this.random, this.hello := hmac, random, hello;
      drawn, handshakeStatus, sendBuf, wire := 0, 0, [], [];
      opening, sent, held, written, broken, oversized := [], [], [], [], false, false;
      reader := new Conn<()>(Parse, Same, ());
    }

    /**
     What the peer gets: any segmentation of the wire behind the handshake decodes to a prefix of the bytes written,
     and what is missing is what is held back.
     */
    lemma WrittenArrives(pieces: seq<seq<byte>>)
      requires Valid() && !broken && !oversized
      ensures opening <= wire && Incremental(Parse, Same)
      ensures Flatten(pieces) == wire[|opening|..] ==>
                var run := Feed(Parse, Start(()), pieces);
                run.out + Flatten(held) == written && run.rest == [] && run.error == None
    {
      hide Records, Flatten, Feed, Parse;
      TlsIncremental();
      assert wire[|opening|..] == Records(sent);
      if Flatten(pieces) == wire[|opening|..] {
        RecordsRoundTrip(sent, pieces);
      }
    }

    /** The socket accepts all of b, or fails. */
    method Send(b: seq<byte>, ok: bool)
      modifies this`wire, this`broken
      ensures wire == if ok then old(wire) + b else old(wire)
      ensures broken == (old(broken) || !ok)
    {
      if ok {
        wire := wire + b;
      } else {
        broken := true;
      }
    }

    /**
     Cuts a write after the handshake into records no longer than section 6.2.1 of RFC 5246 allows, which
     together carry exactly the bytes written.
     */
    method CutRecords(b: seq<byte>) returns (buf: seq<byte>, ghost payloads: seq<seq<byte>>)
      modifies this`drawn
      ensures buf == Records(payloads) && Flatten(payloads) == b
      ensures forall i :: 0 <= i < |payloads| ==> 0 < |payloads[i]| <= 4195 < 0x4000
      ensures forall i :: 0 <= i < |payloads| - 1 ==> |payloads[i]| >= 100
      ensures |b| <= 2048 ==> |payloads| <= 1
    {
      hide Record, Records, Flatten, Sized;
      NoRecords();
      NoneSized();
      buf, payloads := [], [];
      var rest := b;
      while |rest| > 2048
        invariant buf == Records(payloads) && Flatten(payloads) + rest == b && Sized(payloads, rest != [])
        invariant |b| <= 2048 ==> payloads == []
      {
        var size := random(drawn) % 4096 + 100;
        drawn := drawn + 1;
        if |rest| < size {
          size := |rest|;
        }
        RecordsAppend(payloads, rest[..size]);
        assert rest[..size] + rest[size..] == rest;
        SizedMore(payloads, rest[..size], rest[size..] != []);
        buf := buf + Record(rest[..size]);
        payloads := payloads + [rest[..size]];
        rest := rest[size..];
      }
      if |rest| > 0 {
        RecordsAppend(payloads, rest);
        SizedMore(payloads, rest, false);
        buf := buf + Record(rest);
        payloads := payloads + [rest];
      }
      SizedAll(payloads, false);
    }

    /** Before the handshake is over, a write waits as a record in the send buffer. */
    method Hold(b: seq<byte>)
      requires Valid() && handshakeStatus != 8
      modifies this`sendBuf, this`held, this`oversized, this`written
      ensures Valid() && written == old(written) + b && oversized == (old(oversized) || |b| >= 0x1_0000)
      ensures sendBuf == if b == [] then old(sendBuf) else old(sendBuf) + Record(b)
    {
      hide Record, Records;
      if |b| > 0 {
        RecordsAppend(held, b);
        sendBuf := sendBuf + Record(b);
        held := held + [b];
        oversized := oversized || |b| >= 0x1_0000;
      }
      assert Flatten(sent) + (Flatten(old(held)) + b) == (Flatten(sent) + Flatten(old(held))) + b;
      written := written + b;
    }

    /** Once the handshake is over, a write goes straight to the wire. */
    method WriteRecords(b: seq<byte>, ok: bool)
      requires Valid() && handshakeStatus == 8
      modifies this
      ensures Valid() && handshakeStatus == 8 && broken == (old(broken) || !ok) && oversized == old(oversized)
      ensures wire == old(wire) || old(wire) <= wire
      ensures !ok ==> wire == old(wire)
      ensures ok ==> written == old(written) + b
    {
      hide Records, Record, Finishes, Writable, Flatten;
      ghost var payloads;
      var buf;
      buf, payloads := CutRecords(b);
      WritableJoins(sent, payloads);
      assert Flatten([]) == [] by { NoRecords(); }
      Send(buf, ok);
      if ok {
        RecordsJoin(sent, payloads);
        assert (opening + Records(sent)) + buf == opening + (Records(sent) + buf);
        assert Flatten(held) == [] && (Flatten(sent) + []) + b == (Flatten(sent) + b) + [];
        sent, written := sent + payloads, written + b;
      }
    }

    method SendHello(ok: bool)
      requires Valid() && handshakeStatus == 0
      modifies this`handshakeStatus, this`wire, this`broken, this`opening
      ensures Valid() && handshakeStatus == 1 && broken == (old(broken) || !ok)
      ensures wire == if ok then old(wire) + hello else old(wire)
    {
      handshakeStatus := 1;
      Send(hello, ok);
      assert (opening + []) + hello == (opening + hello) + [];
      opening := opening + hello;
    }

    /** Ends the handshake, sending everything held back. */
    method Flush(ok: bool)
      requires Valid() && handshakeStatus == 1
      modifies this
      ensures Valid() && handshakeStatus == 8 && broken == (old(broken) || !ok) && oversized == old(oversized)
      ensures wire == old(wire) || old(wire) <= wire
      ensures !ok ==> wire == old(wire)
      ensures ok ==>
                && |wire| == |old(wire)| + 43 + |old(sendBuf)|
                && var fin := wire[|old(wire)|..|old(wire)| + 43];
                && fin[..11] == [0x14, 3, 3, 0, 1, 1, 0x16, 3, 3, 0, 0x20] && fin[33..] == hmac(fin[..33])[..10]
                && wire == old(wire) + fin + old(sendBuf)
      ensures ok ==> Ended(hmac, old(wire), old(sendBuf), wire)
      ensures written == old(written)
    {
      hide Records;
      var at := drawn;
      var noise := seq(22, i requires 0 <= i < 22 => random(at + i) % 256);
      drawn := drawn + 22;
      var head := [0x14, 3, 3, 0, 1, 1, 0x16, 3, 3, 0, 0x20] + noise;
      FinishingRecords(hmac, head);
      head := head + hmac(head)[..10];
      SendHeld(head, ok);
      if ok {
        Behind(old(wire), head, old(sendBuf));
      }
    }

    method SendHeld(head: seq<byte>, ok: bool)
      requires Valid() && handshakeStatus == 1 && Finishes(hmac, head)
      modifies this
      ensures wire == if ok then old(wire) + (head + old(sendBuf)) else old(wire)
      ensures Valid() && handshakeStatus == 8 && broken == (old(broken) || !ok) && oversized == old(oversized)
      ensures wire == old(wire) || old(wire) <= wire
      ensures !ok ==> wire == old(wire)
      ensures written == old(written)
    {
      hide Finishes, Records;
      var buf := head + sendBuf;
      assert Records([]) == [] by { NoRecords(); }
      sendBuf := [];
      handshakeStatus := 8;
      Send(buf, ok);
      if !broken {
        assert Flatten(held) + [] == Flatten(held) && [] + Flatten(held) == Flatten(held);
        assert wire == (old(wire) + head) + Records(held);
        assert opening + [] == opening && (hello + head)[|hello|..] == head;
        opening := opening + head;
      }
      sent, held := if sent == [] then held else sent, [];
    }

    /**
     Writes b. Record payloads on the wire followed by those held back are always all the bytes written, in
     order, as long as the socket accepts what it is given; once the handshake is over nothing is held back.
     */
    method Write(b: seq<byte>, ok: bool) returns (n: nat, failed: bool)
      requires Valid()
      modifies this
      ensures Valid()
      ensures !broken ==> written == old(written) + b && !failed
      ensures broken == (old(broken) || failed)
      ensures !broken ==> old(wire) <= wire
      ensures oversized == (old(oversized) || (old(handshakeStatus) != 8 && |b| >= 0x1_0000))
      ensures failed ==> n == 0 && wire == old(wire) && !ok
      ensures !failed ==> n == |b|
      ensures old(handshakeStatus) == 1 && b == [] && ok ==> Ended(hmac, old(wire), old(sendBuf), wire)
      ensures handshakeStatus == (if old(handshakeStatus) == 0 then 1 else if old(handshakeStatus) == 1 && b == [] then 8 else old(handshakeStatus))
    {
      hide Record, Records, Flatten;
      if handshakeStatus == 8 {
        WriteRecords(b, ok);
        return if ok then |b| else 0, !ok;
      }
      Hold(b);
      if handshakeStatus == 0 {
        SendHello(ok);
        return if ok then |b| else 0, !ok;
      } else if handshakeStatus == 1 && |b| == 0 {
        Flush(ok);
        return 0, !ok;
      }
      return |b|, false;
    }

    /**
     One read. Before the handshake is over the reply is authenticated and answered by ending it; afterwards
     records are decoded. Reading loses none of the bytes being written.
     */
    method Read(capacity: nat, arrived: seq<byte>, ok: bool) returns (b: seq<byte>, err: Option<ReadError>)
      requires Valid() && reader.Valid()
      modifies this, reader
      ensures Valid() && reader.Valid() && reader.delivered == old(reader.delivered) + b
      ensures !broken ==> written == old(written) && old(wire) <= wire
      ensures oversized == old(oversized)
      ensures old(handshakeStatus) != 8 && old(reader.decoded) == [] ==>
                && err == Refusal(hmac, arrived) && b == []
                && (err.Some? ==> unchanged(this) && unchanged(reader))
      ensures old(handshakeStatus) == 1 && old(reader.decoded) == [] && err == None ==>
                && handshakeStatus == 8 && (!broken ==> Flatten(sent) == written)
                && (ok ==> Ended(hmac, old(wire), old(sendBuf), wire))
    {
      b, err := [], None;
      assert reader.delivered + b == reader.delivered;
      if |reader.decoded| > 0 || handshakeStatus == 8 {
        var e;
        b, e := reader.Read(capacity, arrived);
        return b, if e.Some? then Some(Decoding(e.value)) else None;
      }
      var n := |arrived|;
      if n < 11 + 32 + 1 + 32 {
        return b, Some(TooShort);
      }
      if arrived[33..43] != hmac(arrived[11..33])[..10] || arrived[n - 10..] != hmac(arrived[..n - 10])[..10] {
        return b, Some(BadHmac);
      }
      assert written + [] == written;
      var _, _ := Write([], ok);
    }
  }
}

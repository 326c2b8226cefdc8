/**
 SOCKS addresses (address/address.go) and the UDP packet path around them: the client wrapper
 (client/conn_wrapper.go), the proxy client (relay/udp.go) and the address-mapping server (relay/udp_natmap.go).
 Each hop rewrites the packet in place in a fixed buffer.
 */
module SocksUdp {
  import opened Common
  import opened Bytes

  const MAX_ADDRESS := 259
  const MAX_UDP := 16 * 1024

  datatype Error = ShortBuffer | Eof | Unsupported | InvalidHostOrPort | DomainTooLong | OutOfRange

  datatype Result<+T> = Ok(value: T) | Err(error: Error)

  // -------- addresses --------

  /** How many bytes an address takes, as far as its first two bytes tell. */
  function AddressLength(b: seq<byte>): Result<nat> {
    if |b| < 1 then Err(ShortBuffer)
    else if b[0] == 3 then if |b| < 2 then Err(ShortBuffer) else Ok(1 + 1 + b[1] as int + 2)
    else if b[0] == 1 then Ok(1 + 4 + 2)
    else if b[0] == 4 then Ok(1 + 16 + 2)
    else Err(Unsupported)
  }

  /** The address at the front of a buffer. */
  function ParseBuffer(b: seq<byte>): (r: Result<seq<byte>>)
    ensures r.Ok? ==> r.value <= b && 4 <= |r.value| <= MAX_ADDRESS
  {
    match AddressLength(b)
    case Err(e) => Err(e)
    case Ok(n) => if |b| < n then Err(ShortBuffer) else Ok(b[..n])
  }

  /** What the first bytes of a buffer make of it: an address of type 1, 3 or 4 if all of it is there. */
  lemma ParseIff(b: seq<byte>)
    ensures ParseBuffer(b).Ok? <==>
            && |b| >= 2
            && ((b[0] == 1 && |b| >= 7) || (b[0] == 4 && |b| >= 19) || (b[0] == 3 && |b| >= 4 + b[1] as int))
    ensures ParseBuffer(b) == Err(Unsupported) <==> |b| >= 1 && b[0] != 1 && b[0] != 3 && b[0] != 4
    ensures ParseBuffer(b).Ok? ==>
              ParseBuffer(b).value == b[..if b[0] == 1 then 7 else if b[0] == 4 then 19 else 4 + b[1] as int]
  {
  }

  method ParseAddressFromBuffer(b: seq<byte>) returns (r: Result<seq<byte>>)
    ensures r == ParseBuffer(b)
  {
    var addrLen := 1;
    if |b| < addrLen {
      return Err(ShortBuffer);
    }
    match b[0] {
      case 3 =>
        if |b| < 2 {
          return Err(ShortBuffer);
        }
        addrLen := 1 + 1 + b[1] as int + 2;
      case 1 =>
        addrLen := 1 + 4 + 2;
      case 4 =>
        addrLen := 1 + 16 + 2;
      case _ =>
        return Err(Unsupported);
    }
    if |b| < addrLen {
      return Err(ShortBuffer);
    }
    return Ok(b[..addrLen]);
  }

  /** Reads exactly n bytes of a stream into a buffer, or fails having used the stream up. */
  method ReadFull(stream: seq<byte>, b: array<byte>, at: nat, n: nat) returns (ok: bool, rest: seq<byte>)
    requires at + n <= b.Length
    modifies b
    ensures ok == (|stream| >= n)
    ensures ok ==> rest == stream[n..] && b[at..at + n] == stream[..n] && b[..at] == old(b[..at])
    ensures !ok ==> rest == []
  {
    if |stream| < n {
      return false, [];
    }
    forall i | 0 <= i < n {
      b[at + i] := stream[i];
    }
    return true, stream[n..];
  }

  /**
   What reading an address off a stream into a buffer comes to. A buffer that cannot take the address is only
   noticed when it is sliced, which is out of range.
   */
  function ReadAddress(stream: seq<byte>, size: nat): Result<seq<byte>> {
    if size < 1 then Err(ShortBuffer)
    else if |stream| < 1 then Err(Eof)
    else if stream[0] == 3 && size < 2 then Err(OutOfRange)
    else
      match AddressLength(stream)
      case Err(Unsupported) => Err(Unsupported)
      case Err(_) => Err(Eof)
      case Ok(n) => if size < n then Err(OutOfRange) else if |stream| < n then Err(Eof) else Ok(stream[..n])
  }

  /** The two parsers agree: the reader accepts what the buffer parser accepts, as far as its buffer reaches. */
  lemma ParsersAgree(stream: seq<byte>, size: nat, a: seq<byte>)
    ensures ReadAddress(stream, size) == Ok(a) <==> ParseBuffer(stream) == Ok(a) && |a| <= size
    ensures size >= MAX_ADDRESS ==> (ReadAddress(stream, size) == Ok(a) <==> ParseBuffer(stream) == Ok(a))
  {
  }

  /** How reading an address fails. */
  lemma ReadFails(stream: seq<byte>, size: nat)
    ensures ReadAddress(stream, size) == Err(ShortBuffer) <==> size == 0
    ensures size > 0 && stream == [] ==> ReadAddress(stream, size) == Err(Eof)
    ensures size > 0 && stream != [] && stream[0] !in {1, 3, 4} <==> ReadAddress(stream, size) == Err(Unsupported)
    ensures size > 0 && stream != [] && stream[0] in {1, 3, 4} ==>
              var need := if stream[0] == 1 then 7 else if stream[0] == 4 then 19 else if size < 2 || |stream| < 2 then 2 else 4 + stream[1] as int;
              && (size < need ==> ReadAddress(stream, size) == Err(OutOfRange))
              && (size >= need && |stream| < need ==> ReadAddress(stream, size) == Err(Eof))
  {
  }

  /** Reads an address off a stream, in pieces, and consumes exactly its bytes. */
  method ParseAddressFromReader(stream: seq<byte>, b: array<byte>) returns (r: Result<seq<byte>>, rest: seq<byte>)
    modifies b
    ensures r == ReadAddress(stream, b.Length)
    ensures r.Ok? ==> stream == r.value + rest && b[..|r.value|] == r.value
  {
    if b.Length < 1 {
      return Err(ShortBuffer), stream;
    }
    var ok;
    ok, rest := ReadFull(stream, b, 0, 1);
    if !ok {
      return Err(Eof), rest;
    }
    assert b[0] == b[0..1][0] == stream[0];
    var from, n := 1, 0;
    match b[0] {
      case 3 =>
        if b.Length < 2 {
          return Err(OutOfRange), rest;
        }
        ok, rest := ReadFull(rest, b, 1, 1);
        if !ok {
          return Err(Eof), rest;
        }
        assert b[0] == b[..1][0] && b[1] == b[1..2][0] == stream[1];
        assert b[..2] == stream[..2];
        from, n := 2, b[1] as int + 2;
      case 1 =>
        n := 4 + 2;
      case 4 =>
        n := 16 + 2;
      case _ =>
        return Err(Unsupported), rest;
    }
    assert b[..from] == stream[..from] && rest == stream[from..];
    if b.Length < from + n {
      return Err(OutOfRange), rest;
    }
    ok, rest := ReadFull(rest, b, from, n);
    if !ok {
      return Err(Eof), rest;
    }
    assert b[..from + n] == b[..from] + b[from..from + n];
    assert stream[..from + n] == stream[..from] + stream[from..][..n];
    return Ok(b[..from + n]), rest;
  }

  // -------- building addresses --------

  type V4 = s: seq<byte> | |s| == 4 witness [0, 0, 0, 0]

  type V6 = s: seq<byte> | |s| == 16 witness seq(16, _ => 0)

  datatype Ip = Ip4(v4: V4) | Ip6(v6: V6)

  /** The address of a host and port; how a host parses as an IP address is arbitrary. */
  function Encode(parseIp: seq<byte> -> Option<Ip>, host: seq<byte>, port: int): Result<seq<byte>> {
    if host == [] || port < 0 || port > 65535 then Err(InvalidHostOrPort)
    else
      match parseIp(host)
      case Some(Ip4(ip)) => Ok([1] + ip + Be16(port))
      case Some(Ip6(ip)) => Ok([4] + ip + Be16(port))
      case None => if |host| > 255 then Err(DomainTooLong) else Ok([3, |host|] + host + Be16(port))
  }

  /** Builds the address in the caller's buffer, if it fits. */
  method ParseAddressFromHostPort(parseIp: seq<byte> -> Option<Ip>, host: seq<byte>, port: int, b: array<byte>)
    returns (r: Result<seq<byte>>)
    modifies b
    ensures match Encode(parseIp, host, port)
            case Err(e) => r == Err(e)
            case Ok(a) => r == if |a| <= b.Length then Ok(a) else Err(ShortBuffer)
    ensures r.Ok? ==> |r.value| <= b.Length && b[..|r.value|] == r.value
  {
    if |host| == 0 || port < 0 || port > 65535 {
      return Err(InvalidHostOrPort);
    }
    var head: seq<byte>;
    match parseIp(host) {
      case Some(Ip4(ip)) =>
        if b.Length < 1 + 4 + 2 {
          return Err(ShortBuffer);
        }
        head := [1] + ip;
      case Some(Ip6(ip)) =>
        if b.Length < 1 + 16 + 2 {
          return Err(ShortBuffer);
        }
        head := [4] + ip;
      case None =>
        if |host| > 255 {
          return Err(DomainTooLong);
        }
        if b.Length < 1 + 1 + |host| + 2 {
          return Err(ShortBuffer);
        }
        head := [3, |host|] + host;
    }
    Put(b, 0, head);
    assert b[..|head|] == b[0..0 + |head|];
    Put(b, |head|, Be16(port));
    assert b[..|head| + 2] == b[..|head|] + b[|head|..|head| + 2];
    return Ok(b[..|head| + 2]);
  }

  /** The layouts of section 5 of RFC 1928: type, address or counted name, and port, most significant byte first. */
  lemma EncodeLayout(parseIp: seq<byte> -> Option<Ip>, host: seq<byte>, port: int)
    ensures Encode(parseIp, host, port).Ok? <==>
            host != [] && 0 <= port <= 65535 && (parseIp(host).Some? || |host| <= 255)
    ensures Encode(parseIp, host, port).Ok? && parseIp(host) == None && |host| == 255 ==>
              |Encode(parseIp, host, port).value| == MAX_ADDRESS
    ensures Encode(parseIp, host, port).Ok? ==>
              var a := Encode(parseIp, host, port).value;
              && |a| >= 4 && 0x100 * a[|a| - 2] as int + a[|a| - 1] as int == port
              && match parseIp(host)
                 case Some(Ip4(ip)) => |a| == 7 && a[0] == 1 && a[1..5] == ip
                 case Some(Ip6(ip)) => |a| == 19 && a[0] == 4 && a[1..17] == ip
                 case None => |a| == 4 + |host| && a[0] == 3 && a[1] as int == |host| && a[2..2 + |host|] == host
    ensures Encode(parseIp, host, port) == Err(DomainTooLong) <==>
            host != [] && 0 <= port <= 65535 && parseIp(host) == None && |host| > 255
  {
    var r := Encode(parseIp, host, port);
    if r.Ok? {
      var a := r.value;
      assert a[|a| - 2..] == Be16(port);
      assert a[|a| - 2] == a[|a| - 2..][0] && a[|a| - 1] == a[|a| - 2..][1];
      match parseIp(host)
      case Some(Ip4(ip)) => assert a[1..5] == ip;
      case Some(Ip6(ip)) => assert a[1..17] == ip;
      case None => assert a[2..2 + |host|] == host;
    }
  }

  /** The host of an address, if there is room for one; how an IP address is printed is arbitrary. */
  function Host(format: Ip -> seq<byte>, a: seq<byte>): seq<byte> {
    if |a| < 1 then []
    else if a[0] == 3 then if |a| > 1 && |a| >= 2 + a[1] as int then a[2..2 + a[1] as int] else []
    else if a[0] == 1 then if |a| >= 1 + 4 then format(Ip4(a[1..1 + 4])) else []
    else if a[0] == 4 then if |a| >= 1 + 16 then format(Ip6(a[1..1 + 16])) else []
    else []
  }

  /** The port at the end of an address, if there is room for one. */
  function Port(a: seq<byte>): int {
    match AddressLength(a)
    case Ok(n) => if |a| >= n then FromBe16(a[n - 2..n]) else 0
    case Err(_) => 0
  }

  /** Port and host of any bytes: those of the address in front, and nothing if it is cut short. */
  lemma PartsOf(format: Ip -> seq<byte>, a: seq<byte>)
    ensures ParseBuffer(a).Ok? ==>
              var b := ParseBuffer(a).value; Port(a) == 0x100 * b[|b| - 2] as int + b[|b| - 1] as int
    ensures ParseBuffer(a).Err? ==> Port(a) == 0
    ensures |a| >= 5 && a[0] == 1 ==> Host(format, a) == format(Ip4(a[1..5]))
    ensures |a| >= 17 && a[0] == 4 ==> Host(format, a) == format(Ip6(a[1..17]))
    ensures |a| >= 2 && a[0] == 3 && |a| >= 2 + a[1] as int ==> Host(format, a) == a[2..2 + a[1] as int]
    ensures |a| < 2 || (a[0] == 1 && |a| < 5) || (a[0] == 4 && |a| < 17) || (a[0] == 3 && |a| < 2 + a[1] as int) ==> Host(format, a) == []
  {
    if ParseBuffer(a).Ok? {
      var b := ParseBuffer(a).value;
      assert a[|b| - 2..|b|] == b[|b| - 2..];
    }
  }

  /**
   Every address built can be parsed back whatever follows it, fits 259 bytes, and gives back its port and its host:
   a name as it was, an IP address as it is printed.
   */
  lemma EncodeParses(parseIp: seq<byte> -> Option<Ip>, format: Ip -> seq<byte>, host: seq<byte>, port: int, tail: seq<byte>)
    requires Encode(parseIp, host, port).Ok?
    ensures var a := Encode(parseIp, host, port).value;
            && ParseBuffer(a + tail) == Ok(a) && |a| <= MAX_ADDRESS && Port(a) == port
            && Host(format, a) == (if parseIp(host).Some? then format(parseIp(host).value) else host)
  {
    var a := Encode(parseIp, host, port).value;
    assert (a + tail)[..|a|] == a;
    assert a[|a| - 2..] == Be16(port);
    match parseIp(host)
    case Some(Ip4(ip)) => assert a[1..1 + 4] == ip;
    case Some(Ip6(ip)) => assert a[1..1 + 16] == ip;
    case None => assert a[2..2 + |host|] == host;
  }

  // -------- the packet path --------

  ghost predicate IsAddress(a: seq<byte>) {
    ParseBuffer(a) == Ok(a)
  }

  lemma AddressWithTail(a: seq<byte>, tail: seq<byte>)
    requires IsAddress(a)
    ensures ParseBuffer(a + tail) == Ok(a)
  {
    assert (a + tail)[..|a|] == a;
  }

  /** Copies n bytes from one place of a buffer to another that may overlap it; out of range is an error. */
  method Copy(buf: array<byte>, to: nat, from: nat, n: nat) returns (ok: bool)
    requires from + n <= buf.Length
    modifies buf
    ensures ok == (to + n <= buf.Length)
    ensures ok ==> buf[to..to + n] == old(buf[from..from + n]) && buf[..to] == old(buf[..to])
  {
    if to + n > buf.Length {
      return false;
    }
    forall i | 0 <= i < n {
      buf[to + i] := buf[from + i];
    }
    return true;
  }

  const HEADER: seq<byte> := [0, 0, 0]

  /** Client: header, address and payload in the shared buffer; too long a packet is out of range. */
  method ClientWrite(buf: array<byte>, a: seq<byte>, payload: seq<byte>) returns (r: Result<seq<byte>>)
    requires buf.Length == MAX_UDP && |a| <= MAX_ADDRESS
    modifies buf
    ensures r == if 3 + |a| + |payload| <= 16384 then Ok([0, 0, 0] + a + payload) else Err(OutOfRange)
  {
    if 3 + |a| + |payload| > MAX_UDP {
      return Err(OutOfRange);
    }
    Put(buf, 0, HEADER);
    assert buf[..3] == buf[0..0 + 3];
    Put(buf, 3, a);
    assert buf[..3 + |a|] == HEADER + a;
    Put(buf, 3 + |a|, payload);
    var n := 3 + |a| + |payload|;
    assert buf[..n] == buf[..3 + |a|] + buf[3 + |a|..n];
    return Ok(buf[..n]);
  }

  /** Proxy client, outbound: drop the SOCKS header. */
  function Strip(packet: seq<byte>): Result<seq<byte>> {
    if |packet| < 3 then Err(ShortBuffer) else Ok(packet[3..])
  }

  /** Server, outbound: split off the address. */
  function Unwrap(packet: seq<byte>): Result<(seq<byte>, seq<byte>)> {
    match ParseBuffer(packet)
    case Err(e) => Err(e)
    case Ok(a) => Ok((a, packet[|a|..]))
  }

  /** Puts a prefix in front of the n bytes behind it. */
  method PutInFront(buf: array<byte>, a: seq<byte>, n: nat)
    requires |a| + n <= buf.Length
    modifies buf
    ensures buf[..|a| + n] == a + old(buf[|a|..|a| + n])
  {
    Put(buf, 0, a);
    assert buf[0 + |a|..][..n] == buf[|a|..|a| + n] && old(buf[0 + |a|..])[..n] == old(buf[|a|..|a| + n]);
    assert buf[..|a| + n] == buf[0..0 + |a|] + buf[|a|..|a| + n];
  }

  /** Server, inbound: the payload read into the buffer is moved up, overlapping itself, and the address put in front. */
  method Wrap(buf: array<byte>, a: seq<byte>, n: nat) returns (r: Result<seq<byte>>)
    requires buf.Length == MAX_UDP && n <= MAX_UDP && |a| <= MAX_ADDRESS
    modifies buf
    ensures r == if |a| + n <= 16384 then Ok(a + old(buf[..n])) else Err(OutOfRange)
  {
    var ok := Copy(buf, |a|, 0, n);
    if !ok {
      return Err(OutOfRange);
    }
    PutInFront(buf, a, n);
    return Ok(buf[..|a| + n]);
  }

  /** Proxy client, inbound: the packet is moved up by three and the header put in front. */
  method Prepend(buf: array<byte>, n: nat) returns (r: Result<seq<byte>>)
    requires buf.Length == MAX_UDP && n <= MAX_UDP
    modifies buf
    ensures r == if n < 3 then Err(ShortBuffer) else if 3 + n <= 16384 then Ok([0, 0, 0] + old(buf[..n])) else Err(OutOfRange)
  {
    if n < 3 {
      return Err(ShortBuffer);
    }
    var ok := Copy(buf, 3, 0, n);
    if !ok {
      return Err(OutOfRange);
    }
    PutInFront(buf, HEADER, n);
    return Ok(buf[..3 + n]);
  }

  /** Client, inbound: skip header and address; the rest is the payload, as far as the caller's buffer reaches. */
  function ClientRead(packet: seq<byte>, capacity: nat): Result<seq<byte>> {
    if |packet| < 3 then Err(OutOfRange)
    else
      match ParseBuffer(packet[3..])
      case Err(e) => Err(e)
      case Ok(a) =>
        var payload := packet[3 + |a|..];
        Ok(if |payload| <= capacity then payload else payload[..capacity])
  }

  /** What the hops refuse: packets without room for the header, and those that do not start with an address. */
  lemma Refused(packet: seq<byte>, capacity: nat)
    ensures Strip(packet).Err? <==> |packet| < 3
    ensures Strip(packet).Ok? ==> Strip(packet).value == packet[3..]
    ensures Unwrap(packet).Ok? <==> ParseBuffer(packet).Ok?
    ensures ClientRead(packet, capacity).Ok? <==> |packet| >= 3 && ParseBuffer(packet[3..]).Ok?
    ensures ClientRead(packet, capacity) == Err(OutOfRange) <==> |packet| < 3
    ensures ClientRead(packet, capacity).Ok? ==>
              var payload := packet[3 + |ParseBuffer(packet[3..]).value|..];
              var got := ClientRead(packet, capacity).value;
              got <= payload && |got| <= capacity && (|payload| <= capacity ==> got == payload) && (|payload| > capacity ==> |got| == capacity)
  {
  }

  /** Outbound: what the client wrote for an address reaches the server as that address and that payload. */
  lemma OutboundRoundTrip(a: seq<byte>, payload: seq<byte>)
    requires IsAddress(a)
    ensures Strip(HEADER + a + payload).Ok?
    ensures Unwrap(Strip(HEADER + a + payload).value) == Ok((a, payload))
  {
    assert (HEADER + a + payload)[3..] == a + payload;
    AddressWithTail(a, payload);
    assert (a + payload)[|a|..] == payload;
  }

  /** Inbound: what the server wrapped and the proxy client prepended is read as the payload. */
  lemma InboundRoundTrip(a: seq<byte>, payload: seq<byte>, capacity: nat)
    requires IsAddress(a) && |payload| <= capacity
    ensures ClientRead(HEADER + (a + payload), capacity) == Ok(payload)
  {
    var packet := HEADER + (a + payload);
    assert packet[3..] == a + payload;
    AddressWithTail(a, payload);
    assert packet[3 + |a|..] == payload;
  }

  /** The whole path in both directions, through real buffers: it delivers exactly when the packet fits them. */
  method ThroughAllHops(a: seq<byte>, payload: seq<byte>) returns (out: Result<(seq<byte>, seq<byte>)>, back: Result<seq<byte>>)
    requires IsAddress(a) && |payload| <= MAX_UDP
    ensures out == if 3 + |a| + |payload| <= 16384 then Ok((a, payload)) else Err(OutOfRange)
    ensures back == if 3 + |a| + |payload| <= 16384 then Ok(payload) else Err(OutOfRange)
  {
    var buf := new byte[MAX_UDP](_ => 0);
    var packet := ClientWrite(buf, a, payload);
    if packet.Err? {
      out := Err(packet.error);
    } else {
      OutboundRoundTrip(a, payload);
      out := Unwrap(Strip(packet.value).value);
    }
    Put(buf, 0, payload);
    assert buf[..|payload|] == buf[0..0 + |payload|];
    packet := Wrap(buf, a, |payload|);
    if packet.Err? {
      return out, Err(packet.error);
    }
    Put(buf, 0, packet.value);
    assert buf[..|packet.value|] == buf[0..0 + |packet.value|];
    packet := Prepend(buf, |packet.value|);
    if packet.Err? {
      return out, Err(packet.error);
    }
    InboundRoundTrip(a, payload, MAX_UDP);
    return out, ClientRead(packet.value, MAX_UDP);
  }
}

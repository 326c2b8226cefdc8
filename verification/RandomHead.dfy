/**
 The random_head obfuscation layer (ssr/obfs/random_head.go): a random header goes out first, and what the
 application writes waits until the peer has answered it.
 */
module RandomHead {
  import opened Bytes

  /** Four to 99 bytes followed by the complement of their checksum. */
  predicate IsHeader(crc32: seq<byte> -> u32, h: seq<byte>) {
    8 <= |h| <= 103 && h[|h| - 4..] == Le32(0xFFFF_FFFF - crc32(h[..|h| - 4]))
  }

  class HeadConn {
    const random: nat -> nat
    const crc32: seq<byte> -> u32
    var hasSentHeader: bool
    var rawTransSent: bool
    var rawTransRecv: bool
    var buf: seq<byte>
    var wire: seq<byte>            // what the socket has accepted

    ghost var header: seq<byte>    // the header on the wire
    ghost var written: seq<byte>   // every byte the application has written
    ghost var broken: bool         // some socket write has failed

    ghost predicate Valid()
      reads this
    {
      && (rawTransSent ==> buf == [] && hasSentHeader && rawTransRecv)
      && (!hasSentHeader ==> buf == [])
      && (!broken ==>
            && header <= wire && wire[|header|..] + buf == written
            && (!rawTransSent ==> wire == header)
            && (!hasSentHeader ==> header == [])
            && (hasSentHeader ==> IsHeader(crc32, header)))
    }

    constructor (random: nat -> nat, crc32: seq<byte> -> u32)
      ensures Valid() && written == [] && wire == [] && !broken
    {
      this.random, this.crc32 := random, crc32;
      hasSentHeader, rawTransSent, rawTransRecv, buf, wire := false, false, false, [], [];
      header, written, broken := [], [], false;
    }

    method Send(b: seq<byte>, ok: bool)
      modifies this`wire, this`broken
      ensures wire == if ok then old(wire) + b else old(wire)
      ensures broken == (old(broken) || !ok)
    {
      if ok {
        wire := wire + b;
      } else {
        broken := true;
      }
    }

    method Header() returns (b: seq<byte>)
      ensures IsHeader(crc32, b) && |b| == random(0) % 96 + 8
      ensures b[|b| - 4..] == Le32(0xFFFF_FFFF - crc32(b[..|b| - 4]))
    {
      var n := random(0) % 96 + 4;
      var noise: seq<byte> := seq(n, i requires 0 <= i < n => random(i + 1) % 256);
      b := noise + Le32(0xFFFF_FFFF - crc32(noise));
      assert b[..|b| - 4] == noise;
    }

    /**
     Writes b. What is on the wire behind the header, followed by what is held back, is always all that was
     written, in order; nothing is held back once the peer has answered and something more is written.
     */
    method Write(b: seq<byte>, ok: bool) returns (failed: bool)
      requires Valid()
      modifies this
      ensures Valid() && rawTransRecv == old(rawTransRecv) && hasSentHeader
      ensures failed ==> !ok
      ensures broken == (old(broken) || failed)
      ensures !failed || !old(rawTransSent) ==> written == old(written) + b
      ensures old(hasSentHeader) && rawTransRecv ==> rawTransSent
      ensures !broken ==> old(wire) <= wire && old(header) <= header && (old(hasSentHeader) ==> header == old(header))
    {
      hide IsHeader;
      if rawTransSent {
        Send(b, ok);
        if ok {
          written := written + b;
        }
        return !ok;
      }
      assert !broken ==> wire[|header|..] + (buf + b) == (wire[|header|..] + buf) + b;
      buf := buf + b;
      written := written + b;
      if !hasSentHeader {
        Open(ok);
        return !ok;
      }
      if rawTransRecv {
        Release(ok);
        return !ok;
      }
      return false;
    }

    /** The first write sends the header. */
    method Open(ok: bool)
      requires !hasSentHeader && !rawTransSent && (!broken ==> wire == header == [] && buf == written)
      modifies this`hasSentHeader, this`header, this`wire, this`broken
      ensures Valid() && hasSentHeader && broken == (old(broken) || !ok)
      ensures !broken ==> old(wire) <= wire && old(header) <= header
    {
      hide IsHeader;
      hasSentHeader := true;
      var h := Header();
      Send(h, ok);
      header := h;
    }

    /** Once the peer has answered, everything held back goes out. */
    method Release(ok: bool)
      requires Valid() && hasSentHeader && rawTransRecv && !rawTransSent
      modifies this`buf, this`rawTransSent, this`wire, this`broken
      ensures Valid() && rawTransSent && broken == (old(broken) || !ok)
      ensures !broken ==> old(wire) <= wire
    {
      hide IsHeader;
      Send(buf, ok);
      buf := [];
      rawTransSent := true;
    }

    /** Reads. The first answer from the peer is discarded and releases what is held back. */
    method Read(arrived: seq<byte>, ok: bool) returns (b: seq<byte>)
      requires Valid()
      modifies this
      ensures Valid() && rawTransRecv
      ensures b == if old(rawTransRecv) then arrived else []
      ensures !broken ==> written == old(written) && old(wire) <= wire
      ensures !broken && old(hasSentHeader && !rawTransRecv) ==> wire == header + written
    {
      if rawTransRecv {
        return arrived;
      }
      rawTransRecv := true;
      assert written + [] == written;
      var _ := Write([], ok);
      b := [];
    }
  }
}

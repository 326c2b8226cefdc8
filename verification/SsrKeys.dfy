/** Which key a configured method hands to the ShadowsocksR protocols (cipher/cipher.go, ssr/cipher.go). */
module SsrKeys {
  import opened Common
  import opened Bytes

  /** Key sizes of the stream ciphers. */
  const STREAM_KEY_SIZES: map<string, nat> := map[
    "aes-128-ctr" := 16, "aes-192-ctr" := 24, "aes-256-ctr" := 32,
    "aes-128-cfb" := 16, "aes-192-cfb" := 24, "aes-256-cfb" := 32,
    "bf-cfb" := 16, "salsa20" := 32, "rc4-md5" := 16, "chacha20" := 32, "chacha20-ietf" := 32]

  const AEAD_METHODS: set<string> := {
    "aes-128-gcm", "aes-192-gcm", "aes-256-gcm", "chacha20-ietf-poly1305", "xchacha20-ietf-poly1305"}

  /** What key derivation adds to the bytes it has: digests, each of the one before and the password. */
  function Derived(md5: seq<byte> -> Digest, password: seq<byte>, res: seq<byte>, prev: seq<byte>, size: nat): (r: seq<byte>)
    ensures |r| == size
    decreases size - |res|
  {
    if |res| >= size then res[..size]
    else
      var digest := md5(prev + password);
      Derived(md5, password, res + digest, digest, size)
  }

  /**
   The derived key, block by block: the first 16 bytes are the digest of the password, and every later block is the
   digest of the block before it and the password.
   */
  lemma KeyBlocks(md5: seq<byte> -> Digest, password: seq<byte>, size: nat, i: nat)
    requires 16 * (i + 1) <= size
    ensures var key := Derived(md5, password, [], [], size);
            && key[..16] == md5(password)
            && (i > 0 ==> key[16 * i..16 * i + 16] == md5(key[16 * (i - 1)..16 * i] + password))
  {
    var first := md5([] + password);
    assert [] + password == password && [] + first == first;
    DerivedFrom(md5, password, first, size, 0);
    if i > 0 {
      DerivedFrom(md5, password, first, size, i);
    }
  }

  lemma {:induction false} DerivedFrom(md5: seq<byte> -> Digest, password: seq<byte>, res: seq<byte>, size: nat, i: nat)
    requires |res| >= 16 && |res| % 16 == 0 && 16 * (i + 1) <= size
    requires |res| - 16 < size
    ensures var key := Derived(md5, password, res, res[|res| - 16..], size);
            && (size >= |res| ==> key[..|res|] == res)
            && (16 * i >= |res| ==> i > 0 && key[16 * i..16 * i + 16] == md5(key[16 * (i - 1)..16 * i] + password))
    decreases size - |res|
  {
    if |res| < size {
      var prev := res[|res| - 16..];
      var digest := md5(prev + password);
      var more := res + digest;
      assert more[|more| - 16..] == digest && more[..|res|] == res;
      DerivedFrom(md5, password, more, size, i);
      var key := Derived(md5, password, more, digest, size);
      if size >= |more| {
        assert key[..|res|] == key[..|more|][..|res|];
        if 16 * i == |res| {
          assert key[16 * i..16 * i + 16] == key[..|more|][|res|..] == digest;
          assert key[16 * (i - 1)..16 * i] == key[..|more|][|res| - 16..|res|] == prev;
        }
      }
    }
  }

  method Kdf(md5: seq<byte> -> Digest, password: seq<byte>, size: nat) returns (key: seq<byte>)
    ensures key == Derived(md5, password, [], [], size) && |key| == size
  {
    var res: seq<byte>, prev: seq<byte> := [], [];
    while |res| < size
      invariant Derived(md5, password, res, prev, size) == Derived(md5, password, [], [], size)
      decreases size - |res|
    {
      res := res + md5(prev + password);
      prev := res[|res| - 16..];
    }
    key := res[..size];
  }

  /** The key a method comes with: none at all without a stream cipher; unsupported methods are refused. */
  function KeyFor(md5: seq<byte> -> Digest, how: string, password: seq<byte>): Option<seq<byte>> {
    if how == "none" then Some([])
    else if how in STREAM_KEY_SIZES then Some(Derived(md5, password, [], [], STREAM_KEY_SIZES[how]))
    else if how in AEAD_METHODS then Some([])
    else None
  }

  /** The key sizes, in bytes. */
  lemma KeySizes(md5: seq<byte> -> Digest, how: string, password: seq<byte>)
    requires KeyFor(md5, how, password).Some?
    ensures var n := |KeyFor(md5, how, password).value|;
            && (how in {"aes-128-ctr", "aes-128-cfb", "bf-cfb", "rc4-md5"} ==> n == 16)
            && (how in {"aes-192-ctr", "aes-192-cfb"} ==> n == 24)
            && (how in {"aes-256-ctr", "aes-256-cfb", "salsa20", "chacha20", "chacha20-ietf"} ==> n == 32)
            && (how == "none" || how in AEAD_METHODS ==> n == 0)
  {
  }

  /** A key is long enough to seed a generator exactly when the method is a stream cipher. */
  lemma LongKeys(md5: seq<byte> -> Digest, how: string, password: seq<byte>)
    requires KeyFor(md5, how, password).Some?
    ensures |KeyFor(md5, how, password).value| >= 16 <==> how in STREAM_KEY_SIZES
  {
    assert "none" !in STREAM_KEY_SIZES;
  }
}

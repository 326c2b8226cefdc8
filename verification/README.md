# mini-ss in Dafny

mini-ss is a Shadowsocks and ShadowsocksR proxy. This project models the stateful cores of mini-ss that need no network, and
proves what each is for:

- the ShadowsocksR framing protocols, which pad, number and authenticate frames and decode them from arbitrary
  pieces (`AuthChain`, `ChainPadding`, `PaddedAuth`, `FrameStream`, `XorShift`, `Bits`, `SsrKeys`);
- the obfuscators that hold data back during a handshake (`TlsTicket`, `RandomHead`);
- the fake-IP resolver, its address pool and its two caches (`FakeIp`, `IpPool`, `Lru`);
- the authenticated stream with its nonce counter (`Aead`);
- the domain trie, what its patterns mean, and the suffix rules built on it (`DomainTrie`, `Patterns`, `SuffixRule`);
- the UDP relay's address map under interleaving (`NatMap`), and SOCKS addresses through all UDP hops (`SocksUdp`);
- the re-entrant add-on chain (`AddonChain`).

`dafny verify dfyconfig.toml` checks the whole project.

## How it is built

Each component is defined once on values, by functions, and its properties are lemmas about those functions. Where the
source changes state in place there is a class or a method beside it, in the source's form, whose postcondition equates
the new state with the function of the old one, so every lemma holds of it.

What the source takes from outside is a parameter and arbitrary: hash, HMAC, checksum and cipher functions (with only
the lengths and inverse laws they are used for), random draws, clock readings, iteration orders, what a socket accepts
or delivers, and the segmentation of streams. Fixed-width integers are modelled with their wrap-around where it can
occur: the 16-bit lengths, the 32-bit frame numbers and addresses, the 64-bit generator, the 8-bit cursor.

## Where the source falls short of its promise

Each names the member that states the exact condition.

- The chain protocols drop two bytes from a frame numbered 1, meant to be the first; the 32-bit number returns to 1
  after 2^32 frames (`AuthChain.OnlyFirstFrameIsCut`).
- The length check of the authenticated stream admits up to one overhead more than the buffer holds
  (`Aead.FrameTakenIff`). Frames made by the writer are never that long.
- The add-on chain is sound up to 63 handlers; beyond that the cursor overflows or aborting does not hold
  (`AddonChain.AllNextRunsIff`, `AddonChain.AbortHoldsIff`, `AddonChain.AbortMayNeverEnd`).
- A reverse lookup of a released address may answer with a record that has another address
  (`FakeIp.RightAddressIff`; `FakeIp.StaleReverseLookup` gives a run).
- A cache of capacity zero breaks off on every set (`Lru.LruCache.Store`).
- The resolver cannot be set up for 255.255.255.255/31 (`FakeIp.NewContract`).
- A write of 65536 bytes or more during the TLS handshake becomes a record that cannot be read back
  (`TlsTicket.RecordParses`).
- Seeding the generator from fewer than 16 bytes runs off the end, although padding was intended
  (`XorShift.FromBin`, `ChainPadding.TableIsSizeTable`). With any method that is not a stream cipher, the default
  among them, there is no key, and chain_b connections cannot be set up (`AuthChain.ConnectsIff`,
  `AuthChain.NoneCannotConnect`).
- A suffix rule never matches a target with an empty label, even if the target ends in the value
  (`SuffixRule.SuffixRulesMeanSuffixes`).

A frame that authenticates but whose inner lengths do not fit makes the source index out of range. The decoders model
this as the error `OutOfRange`, so statements about arbitrary bytes include it.

## Model

| member | source | states |
|---|---|---|
| `AuthChain.ChainRoundTrip` | ssr/protocol/auth_chain_a.go:87-135 | Main result. For every key, padding rule, hash, cipher and random source: the frames of any payloads, cut up on the way in any manner, decode to exactly those payloads in order, with nothing left over, no error, and the receiver where the sender is: digest, frame number, cipher position, and the generator too if it agreed before or some payload re-seeds it. The only bytes missing are the first two of a frame numbered 1. |
| `AuthChain.OnlyFirstFrameIsCut` | ssr/protocol/auth_chain_a.go:126-131 | Exact condition: on a fresh connection the stream arrives whole apart from its first two bytes if and only if it has at most 2^32 frames; the 32-bit frame number then reads 1 again and two more bytes are dropped. |
| `AuthChain.DeliveredBefore` | ssr/protocol/auth_chain_a.go:126-131 | From any frame number: nothing is dropped if and only if the number does not reach 1 within the stream. |
| `AuthChain.EncodedBytesArrive` | ssr/protocol/auth_chain_a.go:137-152 | With either padding rule, what one call to encode sends after the first frame comes out at the peer byte for byte, in any segmentation, as long as the frame number does not reach 1 again on the way. |
| `AuthChain.ChainSplitAnywhere` | ssr/protocol/auth_chain_a.go:87-135 | On any bytes at all, valid or not, decoding a first part and then the rest gives the output, left-over bytes and error of decoding the whole, and receivers that cannot be told apart afterwards. |
| `AuthChain.ChainIncremental` | ssr/protocol/auth_chain_a.go:92-110 | A turn that must wait for more bytes has already overwritten two bytes of the digest and re-seeded the generator; no later turn can tell. |
| `AuthChain.FrameParses` | ssr/protocol/auth_chain_a.go:87-135 | A frame followed by anything is decoded to its payload by every receiver in step, whatever earlier waiting turns did to its digest prefix and generator; digests are equal afterwards, and so are the generators if they were before or the frame re-seeds them. |
| `AuthChain.StreamDecodes` | ssr/protocol/auth_chain_a.go:87-135 | A concatenation of frames decodes to all their payloads and leaves the receiver where the sender is. |
| `AuthChain.PartDecodes` | ssr/protocol/auth_chain_a.go:92-134 | Decoding any part of a stream, ending inside a frame or not, moves the receiver to a later point of the stream, still in step; the frame it waits in may have re-seeded its generator. |
| `AuthChain.FeedDecodes` | ssr/protocol/stream.go:15-33 | From the middle of a stream, whatever pieces the rest arrives in, all remaining payloads come out and the receiver catches up with the sender. |
| `AuthChain.PartWaits` | ssr/protocol/auth_chain_a.go:98-110 | On part of a frame a receiver waits and stays in step; its generator changes only if the frame re-seeds it. |
| `AuthChain.ConnectsIff` | ssr/protocol/auth_chain_b.go:29-62 | Exact condition: with a supported method, chain_a connections can always be set up, and chain_b connections if and only if the method is a stream cipher. |
| `AuthChain.NoneCannotConnect` | ssr/protocol/auth_chain_b.go:46-51 | The failing input: with the default method there is no key, and a chain_b connection cannot be set up. |
| `AuthChain.StreamConn` | ssr/protocol/auth_chain_b.go:29-44 | Sets up an endpoint with the rule and the receiving generator derived from the key, or fails exactly when the table cannot be derived. |
| `AuthChain.FrameShape` | ssr/protocol/auth_chain_a.go:234-273 | A frame byte for byte: the length masked with the last two bytes of the previous digest, each payload byte mixed with its byte of the key stream at the drawn offset, the random bytes around it, and two bytes of the digest keyed with the user key and the four bytes of the frame number; and the whole state of the sender afterwards. |
| `AuthChain.KeyPerNumber` | ssr/protocol/auth_chain_a.go:237-240 | Different frame numbers are authenticated under different keys. |
| `AuthChain.AcceptsIff` | ssr/protocol/auth_chain_a.go:92-131 | Exactly which bytes are refused for their length, waited for, refused for their checksum, or accepted; nothing is accepted that does not end in the digest under the key for the number expected. |
| `AuthChain.RuleOfProtocol` | ssr/protocol/auth_chain_b.go:16-44 | Each protocol pads by its own rule, chain_b by the sizes derived from the key. |
| `AuthChain.BodyHoldsData` | ssr/protocol/auth_chain_a.go:252-266 | The padded body contains the payload at the offset the receiver computes, for every padding length, including none. |
| `AuthChain.CryptTwice` | ssr/protocol/auth_chain_a.go:292-296 | Decrypting at the position of encryption restores the bytes. |
| `AuthChain.StartPos` | ssr/protocol/auth_chain_a.go:268-273 | The start position lies within the padding. |
| `AuthChain.VariantContract` | ssr/protocol/auth_chain_a.go:275-290 | Both padding rules, depending on the payload length alone, re-seed from the digest or change nothing, re-seed for every payload below 1440 bytes, and keep payload plus padding below the decoder's limit of 4096. |
| `AuthChain.ChunksSendable` | ssr/protocol/auth_chain_a.go:144-151 | Pieces of at most 2800 bytes are all sendable until the frame number reaches 1. |
| `AuthChain.Endpoint.constructor` | ssr/protocol/auth_chain_a.go:64-76 | A connection starts with both frame numbers at 1, the agreed digests, the cipher at its beginning, and the receiving generator as deriving the table left it. |
| `AuthChain.Endpoint.RandDataLength` | ssr/protocol/auth_chain_a.go:18 | Selects the padding rule the endpoint was built with; digest, generator and length are as that rule says. |
| `AuthChain.Endpoint.GetRandStartPos` | ssr/protocol/auth_chain_a.go:268-273 | Draws once and returns the start position for that draw; without padding it draws nothing. |
| `AuthChain.Endpoint.AppendRandBytes` | ssr/protocol/auth_chain_a.go:252-266 | Appends the next n random bytes and accounts for them. |
| `AuthChain.Endpoint.PutMixedRandDataAndData` | ssr/protocol/auth_chain_a.go:252-266 | Builds the padded body, advancing digest, generator and random source as the model does; empty payloads are covered. |
| `AuthChain.Endpoint.PackData` | ssr/protocol/auth_chain_a.go:234-250 | Appends one frame and updates hash chain, frame number, generator and cipher; exactly the given part of the caller's array has been encrypted in place. |
| `AuthChain.Endpoint.XorKeyStream` | ssr/protocol/auth_chain_a.go:234-250 | Encrypts a range of an array in place and nothing else of it. |
| `AuthChain.Endpoint.SendChunk` | ssr/protocol/auth_chain_a.go:144-151 | One turn of the chunking loop keeps: what is out, followed by the frames of what remains, is the encoding of the whole. |
| `AuthChain.Endpoint.Encode` | ssr/protocol/auth_chain_a.go:137-152 | The loop sends exactly the frames of the 2800-byte pieces, in order; the receiving half is untouched; the caller's bytes end up encrypted. |
| `AuthChain.Endpoint.OpenFrame` | ssr/protocol/auth_chain_a.go:108-131 | Authenticates and decrypts a whole frame exactly as the value-level decoder does, error cases included. |
| `AuthChain.Endpoint.TakeFrame` | ssr/protocol/auth_chain_a.go:92-131 | One turn of the decoding loop refines the value-level turn, including the state it changes before it waits. |
| `AuthChain.Endpoint.Decode` | ssr/protocol/auth_chain_a.go:87-135 | The in-place loop refines the value-level decoder; once authentication fails the connection passes bytes through. |
| `ChainPadding.PaddingAContract` | ssr/protocol/auth_chain_a.go:275-290 | Up to 1440 bytes the rule re-seeds, depending only on the length and the digest beyond its first two bytes; beyond that it changes nothing; payload plus padding stays below 4096. |
| `ChainPadding.PaddingBContract` | ssr/protocol/auth_chain_b.go:64-93 | The same for the table-driven rule, below 1440 bytes, for every table. |
| `ChainPadding.PaddingByLength` | ssr/protocol/auth_chain_a.go:275-290 | How chain_a pads, by payload length, draw and digest. |
| `ChainPadding.PaddingBySizes` | ssr/protocol/auth_chain_b.go:64-93 | How chain_b pads below 1440 bytes, stated with the first fitting position of each list and up to three draws. |
| `ChainPadding.NoPaddingBeyond` | ssr/protocol/auth_chain_b.go:65-67 | Chain_b does not pad from 1440 bytes on. |
| `ChainPadding.TableDraws` | ssr/protocol/auth_chain_b.go:46-62 | Which draws decide the lengths of the two lists and which fill them; both are sorted; how far the generator has advanced. |
| `ChainPadding.Range` | ssr/protocol/auth_chain_a.go:279-290 | Bounds of the fallback range: at least 31, and payload plus padding at most 1471 for payloads up to 1440. |
| `ChainPadding.LowerBound` | ssr/protocol/auth_chain_b.go:69-79 | The first position whose element is at least the one sought. |
| `ChainPadding.Choose` | ssr/protocol/auth_chain_b.go:64-93 | The padding is never negative, keeps payload plus padding within 1471, and either makes payload, overhead and padding one of the table's preferred sizes or is below the fallback range. |
| `ChainPadding.Search` | ssr/protocol/auth_chain_b.go:69-79 | Binary search on a sorted list returns that first position. |
| `ChainPadding.GetRandLengthA` | ssr/protocol/auth_chain_a.go:275-290 | The in-place rule computes the modelled padding, digest and generator. |
| `ChainPadding.GetRandLengthB` | ssr/protocol/auth_chain_b.go:64-93 | The in-place table-driven rule computes the modelled padding, digest and generator. |
| `ChainPadding.TableIsSizeTable` | ssr/protocol/auth_chain_b.go:46-62 | Exact condition: a table exists if and only if the key has at least 16 bytes; then both lists are sorted, not empty, of 4 to 11 and 8 to 23 elements, all below 1440. |
| `ChainPadding.NoKeyNoTable` | ssr/protocol/auth_chain_b.go:50 | Without a key there is no table. |
| `ChainPadding.SameLength` | ssr/protocol/auth_chain_a.go:98-100 | Ends whose digests differ at most in the first two bytes compute the same padding length. |
| `ChainPadding.AscendingSorted` | ssr/protocol/auth_chain_b.go:55-61 | The arrangement the lists are left in is sorted. |
| `ChainPadding.Ascending` | ssr/protocol/auth_chain_b.go:55-61 | Sorting keeps every element, with multiplicity. |
| `ChainPadding.SizeDraws` | ssr/protocol/auth_chain_b.go:46-62 | One draw per element, each below 1440. |
| `ChainPadding.DrawList` | ssr/protocol/auth_chain_b.go:46-62 | A list of draws, sorted; the generator has advanced once per element. |
| `ChainPadding.SortInts` | ssr/protocol/auth_chain_b.go:55-61 | Insertion in place of the library sort yields the sorted arrangement. |
| `ChainPadding.InitDataSize` | ssr/protocol/auth_chain_b.go:46-62 | Derives the table specified for the key and leaves the generator as specified, or fails, changing nothing, exactly when there is no such table. |
| `XorShift.AdvanceBits` | ssr/tools/random.go:12-20 | The xorshift128+ step bit by bit, for every state: which bits of the two words each new bit is the exclusive-or of. |
| `XorShift.DrawSums` | ssr/tools/random.go:12-20 | A draw is the sum of the two new words modulo 2^64. |
| `XorShift.FromFull` | ssr/tools/random.go:34-35 | Two words, least significant byte first. |
| `XorShift.Stamp` | ssr/tools/random.go:48 | The length replaces the first two bytes, least significant first; the rest stays. |
| `XorShift.Seeded` | ssr/tools/random.go:38-54 | Four draws are discarded. |
| `XorShift.SeedIgnoresFirstTwo` | ssr/tools/random.go:38-54 | Seeding from a digest and a length does not depend on the first two digest bytes, which is why a repeated turn recomputes the same padding. |
| `XorShift.XorShift128Plus.Next` | ssr/tools/random.go:12-20 | One step of the generator, with 64-bit wrap-around, and its output. |
| `XorShift.FromBin` | ssr/tools/random.go:22-36 | Exact condition: seeding succeeds if and only if there are at least 16 bytes. |
| `XorShift.XorShift128Plus.InitFromBin` | ssr/tools/random.go:22-36 | Seeds from the first 16 bytes, little-endian, or runs off the end: shorter input is padded in a copy that is never used. |
| `SsrKeys.Derived` | cipher/cipher.go:122-133 | Key derivation yields exactly the bytes asked for. |
| `SsrKeys.KeyBlocks` | cipher/cipher.go:122-133 | Block by block: the first 16 bytes are the digest of the password, each later block that of the block before it and the password. |
| `SsrKeys.KeySizes` | cipher/cipher.go:36-58 | The key size of every method. |
| `SsrKeys.Kdf` | cipher/cipher.go:122-133 | The derivation loop: digests, each of the previous digest and the password, cut to size. |
| `SsrKeys.LongKeys` | cipher/cipher.go:36-87 | A method comes with a key of at least 16 bytes if and only if it is a stream cipher; otherwise the protocols get no key. |
| `XorShift.XorShift128Plus.InitFromBinAndLength` | ssr/tools/random.go:38-54 | Writes the length into the caller's first two bytes, seeds from the result and discards four outputs. |
| `FrameStream.SplitAnywhere` | ssr/protocol/stream.go:15-33 | For every incremental parser: decoding a part, keeping what is left over, and decoding the rest is decoding everything at once. |
| `FrameStream.LoopRest` | ssr/protocol/stream.go:26-30 | After an error nothing is left over; otherwise the end of what was given is. |
| `FrameStream.FeedIsLoop` | ssr/protocol/stream.go:15-33 | Whatever the segmentation, feeding the pieces one by one decodes the stream they make up. |
| `FrameStream.Chunks` | ssr/protocol/auth_chain_a.go:144-151 | Cutting into pieces of a maximal size loses and reorders nothing. |
| `FrameStream.ChunksSized` | ssr/protocol/auth_chain_a.go:144-151 | No piece is empty or longer than the maximum. |
| `FrameStream.Drain` | ssr/protocol/auth_chain_a.go:87-135 | The decoding loop over a buffer refines the recursive decoder. |
| `FrameStream.Conn.constructor` | ssr/protocol/stream.go:8-13 | Nothing received, nothing delivered. |
| `FrameStream.Conn.Receive` | ssr/protocol/stream.go:20-29 | Decodes pending bytes and new ones; reports an error exactly when decoding the whole stream so far would; after a refused length or checksum all later bytes pass through. |
| `FrameStream.Conn.Read` | ssr/protocol/stream.go:15-33 | Any sequence of reads with buffers of any size: what was delivered and what is held decoded are together the decoding of everything received. |
| `PaddedAuth.PaddedRoundTrip` | ssr/protocol/auth_aes128_sha1.go:85-146 | Main result for auth_aes128 and auth_sha1_v4. Any byte string sent comes out whole in any segmentation, whatever padding is drawn, and the frame numbers agree afterwards, wrapping together. |
| `PaddedAuth.UnpackAssembled` | ssr/protocol/auth_aes128_sha1.go:104-127 | The payload is found behind both the one-byte and the three-byte form of the padding length. |
| `PaddedAuth.FrameParses` | ssr/protocol/auth_aes128_sha1.go:85-128 | A frame within the window, followed by anything, is decoded to its payload by a receiver that expects its number. |
| `PaddedAuth.PackParses` | ssr/protocol/auth_aes128_sha1.go:162-187 | Every frame the sender makes is such a frame. |
| `PaddedAuth.StreamDecodes` | ssr/protocol/auth_aes128_sha1.go:85-128 | A concatenation of frames decodes to all their payloads. |
| `PaddedAuth.PaddedIncremental` | ssr/protocol/auth_aes128_sha1.go:85-128 | Decoding does not depend on where the bytes are cut. |
| `PaddedAuth.FrameLayout` | ssr/protocol/auth_aes128_sha1.go:162-187 | A frame byte for byte, in either byte order and with either form of the padding length. |
| `PaddedAuth.PackShape` | ssr/protocol/auth_aes128_sha1.go:162-187 | How much padding one call draws and where everything goes; the sender afterwards. |
| `PaddedAuth.AcceptsIff` | ssr/protocol/auth_aes128_sha1.go:90-125 | Exactly which bytes are refused, for which reason, waited for, or accepted, and with which payload. |
| `PaddedAuth.AesChecks` | ssr/protocol/auth_aes128_sha1.go:176-186 | auth_aes128 is little-endian and checks length and frame with the digest keyed by user key and frame number. |
| `PaddedAuth.Sha1Checks` | ssr/protocol/auth_sha1_v4.go:116-120 | auth_sha1_v4 is big-endian; half a CRC-32 guards the length, an Adler-32 the frame, both little-endian. |
| `PaddedAuth.AesPadding` | ssr/protocol/auth_aes128_sha1.go:198-217 | The range padding is drawn from, by payload and call length. |
| `PaddedAuth.Sha1Padding` | ssr/protocol/auth_sha1_v4.go:169-177 | The range padding is drawn from, by payload length. |
| `PaddedAuth.Aes128Fits` | ssr/protocol/auth_aes128_sha1.go:162-217 | For every random draw the total frame length of auth_aes128 lies in [7, 8192). |
| `PaddedAuth.Sha1V4Fits` | ssr/protocol/auth_sha1_v4.go:102-121 | For every random draw the total frame length of auth_sha1_v4 lies in [7, 8192). |
| `PaddedAuth.RandData` | ssr/protocol/auth_aes128_sha1.go:260-269 | Length of the padding with its length prefix, in both forms. |
| `PaddedAuth.Endpoint.constructor` | ssr/protocol/auth_aes128_sha1.go:63-74 | Both frame numbers start at 1. |
| `PaddedAuth.Endpoint.PackRandData` | ssr/protocol/auth_sha1_v4.go:158-167 | Emits the padding with the prefix form its size calls for. |
| `PaddedAuth.Endpoint.PackData` | ssr/protocol/auth_aes128_sha1.go:162-187 | Appends the specified frame and advances the frame number and the random source. |
| `PaddedAuth.Endpoint.Encode` | ssr/protocol/auth_aes128_sha1.go:130-146 | The loop sends exactly the frames of the pieces, each padded in view of the whole length. |
| `PaddedAuth.Endpoint.OpenFrame` | ssr/protocol/auth_aes128_sha1.go:101-127 | Checks and opens a whole frame as the value-level decoder does, error cases included. |
| `PaddedAuth.Endpoint.Decode` | ssr/protocol/auth_sha1_v4.go:36-73 | The in-place loop refines the value-level decoder; certain errors switch the connection to passing bytes through. |
| `TlsTicket.RecordsRoundTrip` | ssr/obfs/tls1.2_ticket_auth.go:51-79 | Any segmentation of the records gives the payload bytes back, in order and complete. |
| `TlsTicket.Record` | ssr/obfs/tls1.2_ticket_auth.go:166-170 | Type 23, version 3.3, the length most significant byte first, and the bytes. |
| `TlsTicket.ReadsIff` | ssr/obfs/tls1.2_ticket_auth.go:53-65 | Exactly which bytes are refused, waited for, or read as a record, and with which payload. |
| `TlsTicket.AcceptedIff` | ssr/obfs/tls1.2_ticket_auth.go:69-75 | A handshake reply is accepted exactly if it is long enough and both checksums hold. |
| `TlsTicket.RecordParses` | ssr/obfs/tls1.2_ticket_auth.go:166-170 | Exact condition: a record reads back as written if and only if its payload is shorter than 65536 bytes. |
| `TlsTicket.RecordsDecode` | ssr/obfs/tls1.2_ticket_auth.go:51-79 | Whole records decode to their payloads with nothing left over. |
| `TlsTicket.TlsIncremental` | ssr/obfs/tls1.2_ticket_auth.go:51-79 | Record reading does not depend on where the bytes are cut. |
| `TlsTicket.TicketConn.constructor` | ssr/obfs/tls1.2_ticket_auth.go:26-37 | Nothing written, handshake not begun. |
| `TlsTicket.TicketConn.WrittenArrives` | ssr/obfs/tls1.2_ticket_auth.go:39-164 | With a socket that accepts everything and no oversized early write: any segmentation of the wire behind the handshake decodes without error to a prefix of the bytes written, and what is held back is exactly the rest. |
| `TlsTicket.TicketConn.CutRecords` | ssr/obfs/tls1.2_ticket_auth.go:83-96 | After the handshake, a write is cut into records that carry exactly its bytes, none longer than 4195 (section 6.2.1 of RFC 5246 allows 2^14) and none but the last shorter than 100; up to 2048 bytes make one record. |
| `TlsTicket.TicketConn.Hold` | ssr/obfs/tls1.2_ticket_auth.go:104-106 | During the handshake a write joins the held-back records and nothing else changes. |
| `TlsTicket.TicketConn.WriteRecords` | ssr/obfs/tls1.2_ticket_auth.go:83-102 | After the handshake a write goes out behind what is already on the wire. |
| `TlsTicket.TicketConn.SendHello` | ssr/obfs/tls1.2_ticket_auth.go:108-149 | The first write sends the client hello and keeps the written bytes held back. |
| `TlsTicket.TicketConn.Flush` | ssr/obfs/tls1.2_ticket_auth.go:150-162 | Ending the handshake sends 43 finishing bytes, eleven of them fixed and the last ten the checksum of the rest, and then everything held back. |
| `TlsTicket.TicketConn.SendHeld` | ssr/obfs/tls1.2_ticket_auth.go:150-162 | The finishing bytes and everything held back leave in order and the handshake is over. |
| `TlsTicket.TicketConn.Write` | ssr/obfs/tls1.2_ticket_auth.go:81-164 | Conservation over every run: as long as the socket accepts what it is given, record payloads sent, followed by those held back, are all bytes written, in order, behind the hello and the finishing bytes; after the handshake nothing is held back. |
| `TlsTicket.TicketConn.Read` | ssr/obfs/tls1.2_ticket_auth.go:39-79 | A handshake reply is refused exactly for its length or either checksum, and then nothing changes; an accepted one sends the finishing bytes and everything held back; records are reassembled; reading loses none of the bytes being written. |
| `RandomHead.HeadConn.constructor` | ssr/obfs/random_head.go:18-29 | Nothing written, nothing on the wire. |
| `RandomHead.HeadConn.Header` | ssr/obfs/random_head.go:43-65 | The random head is 4 to 99 bytes followed by the complement of their checksum. |
| `RandomHead.HeadConn.Write` | ssr/obfs/random_head.go:43-65 | Conservation: what is on the wire behind the head, followed by what is held back, is all that was written; nothing is held back once the peer has answered and more is written. |
| `RandomHead.HeadConn.Open` | ssr/obfs/random_head.go:48-57 | The first write sends the head and holds its bytes back. |
| `RandomHead.HeadConn.Release` | ssr/obfs/random_head.go:58-63 | Once the peer has answered, everything held back goes out behind the head. |
| `RandomHead.HeadConn.Read` | ssr/obfs/random_head.go:31-41 | The first answer is discarded and releases everything held back; later answers are passed on. |
| `Lru.LeastRecentFirst` | util/cache/cache.go:127-184 | After every run of operations the list is in order of last use, where a use is a set or an unexpired get. |
| `Lru.VictimUnusedLongest` | util/cache/cache.go:158-184 | When a new key meets a full cache, exactly one entry leaves, and every other entry has been used since. |
| `Lru.After` | util/cache/cache.go:127-262 | Over every run map and list hold the same keys without duplicates, within capacity; a negative capacity is no bound. |
| `Lru.HoldsWhatWasSet` | util/cache/cache.go:127-184 | Over every run a cached key has the value last set for it and, unless gets renew, expires one lifetime after that. |
| `Lru.EvictedOnce` | util/cache/cache.go:208-215 | Over every run, each time a key leaves the cache the callback is made exactly once: insertions are callbacks plus presence. |
| `Lru.SweepReports` | util/cache/cache.go:245-262 | Each callback of a clean-up carries the value the key held, and that entry had expired. |
| `Lru.SweepResult` | util/cache/cache.go:245-262 | Whatever the iteration order, a clean-up removes exactly the expired among the visited entries. |
| `Lru.GetSlots` | util/cache/cache.go:127-156 | For all options: a get hits if and only if the entry has not expired and answers with the value held; what a hit, an expired entry and a miss do to the entries. |
| `Lru.SetSlots` | util/cache/cache.go:158-184 | What a set does to the entries: it stores value and expiry, and removes the front of a full list if and only if the key is new. |
| `Lru.DeleteSlots` | util/cache/cache.go:186-192 | A delete removes that entry and no other, and reports it. |
| `Lru.RenewedByUse` | util/cache/cache.go:143-150 | Over every run, when gets renew, a cached key expires one lifetime after its last set or unexpired get. |
| `Lru.GetWellFormed` | util/cache/cache.go:127-156 | A get, with any options and in any case, keeps map and list consistent. |
| `Lru.SetWellFormed` | util/cache/cache.go:158-184 | A set keeps map and list consistent and within capacity. |
| `Lru.StepAscending` | util/cache/cache.go:127-192 | Each operation keeps the list in order of last use. |
| `Lru.StepEvicts` | util/cache/cache.go:127-192 | Each operation balances insertions against callbacks and presence. |
| `Lru.StepKeeps` | util/cache/cache.go:127-192 | An operation leaves the value of every key it does not set, and its expiry unless renewed. |
| `Lru.LruCache.constructor` | util/cache/cache.go:94-118 | Starts empty, with any capacity. |
| `Lru.LruCache.Remove` | util/cache/cache.go:208-215 | Removes one entry from map and list with one callback. |
| `Lru.LruCache.Lookup` | util/cache/cache.go:127-156 | Refines the value-level get: miss, expired (kept or removed, as configured) and hit (moved to the back, renewed if configured). |
| `Lru.LruCache.Store` | util/cache/cache.go:158-184 | Refines the value-level set: update in place, or insertion after evicting the front of a full list; it breaks off if and only if the capacity is zero. |
| `Lru.LruCache.Erase` | util/cache/cache.go:186-192 | Refines the value-level delete; an absent key changes nothing. |
| `Lru.LruCache.Cleanup` | util/cache/cache.go:245-262 | For every iteration order, exactly the unexpired entries remain afterwards. |
| `IpPool.PoolSpansUsableHosts` | resolver/pool.go:18-44 | A pool exists for exactly the prefixes from /0 to /31, and spans exactly the usable hosts (both addresses of a /31, section 2.1 of RFC 3021). |
| `IpPool.PoolIsPrefix` | resolver/pool.go:18-70 | On the bits of the four bytes: the pool holds exactly the addresses that share the prefix's leading bits and whose other bits are neither all zero nor all one (for a /31, both). |
| `IpPool.ReleaseOutside` | resolver/pool.go:103-109 | An address outside the pool is not released. |
| `IpPool.AddressBijection` | resolver/pool.go:131-138 | Addresses and 32-bit numbers correspond one to one. |
| `IpPool.IndexBijection` | resolver/pool.go:64-70 | Inside the pool, addresses and indices correspond one to one. |
| `IpPool.AllocateContract` | resolver/pool.go:111-129 | Allocation fails if and only if the pool is full; otherwise the address was free, it alone becomes taken, one fewer is available; it is the one the host's checksum points to if that is free, else the lowest free one. |
| `IpPool.ReleaseFrees` | resolver/pool.go:103-109 | Releasing any taken address frees it and no other, and raises the number available by one. |
| `IpPool.ReleaseUndoesAllocate` | resolver/pool.go:103-129 | Releasing an allocated address restores the pool. |
| `IpPool.BlockFits` | resolver/pool.go:18-44 | The block of a prefix lies within the address space, so no bound wraps around. |
| `IpPool.FirstFree` | resolver/pool.go:83-101 | The first free index, or none exactly when all are taken. |
| `IpPool.AddressPool.constructor` | resolver/pool.go:18-44 | A fresh pool over the prefix, all free. |
| `IpPool.AddressPool.Available` | resolver/pool.go:54-62 | Counts the free addresses. |
| `IpPool.AddressPool.FindFree` | resolver/pool.go:83-129 | The scan finds the first free index. |
| `IpPool.AddressPool.IndexOf` | resolver/pool.go:64-70 | The index of an address, or -1 outside the pool. |
| `IpPool.AddressPool.ClaimFor` | resolver/pool.go:83-101 | Refines the value-level claim of a given address, which may already be taken. |
| `IpPool.AddressPool.ReleaseIp` | resolver/pool.go:103-109 | Refines the value-level release. |
| `IpPool.AddressPool.AllocateIp` | resolver/pool.go:111-129 | Refines the value-level allocation. |
| `FakeIp.AddressesConserved` | resolver/fakeip.go:38-156 | Main result. Over every run of queries, reverse lookups, expiries, evictions and clean-ups, with clocks that may read anything: the taken addresses are exactly the tunnel's, the DNS server's and those of the cached hosts; the first two are distinct and never given to a host; no two cached hosts share an address. |
| `FakeIp.ReverseLookup` | resolver/fakeip.go:92-98 | In every such state a successful reverse lookup names the host most recently given the address, with that host's present record; if a cached record holds the address the answer is that record; the answer carries the address looked up if and only if some cached host holds it. |
| `FakeIp.FoundIff` | resolver/fakeip.go:92-98 | A reverse lookup answers if and only if the address has a live entry and the host it names a live record, and then with that record. |
| `FakeIp.AskThenLookUp` | resolver/fakeip.go:92-156 | Looking up the address a query has just given a host, within both lifetimes, gives that record back. |
| `FakeIp.QueryNew` | resolver/fakeip.go:100-133 | A new record has the address allocated for the host's checksum, lives a minute in each cache, and displaces a host only when 4096 are cached. |
| `FakeIp.CleanedHosts` | util/cache/cache.go:245-262 | A clean-up leaves exactly the hosts that have not expired and takes back exactly the addresses of the others. |
| `FakeIp.CleanedIps` | util/cache/cache.go:245-262 | A clean-up of the address cache leaves exactly what has not expired, and the hosts alone. |
| `FakeIp.DnsAddress` | resolver/fakeip.go:55-66 | The DNS server gets the address after the tunnel's if usable, else the first. |
| `FakeIp.RightAddressIff` | resolver/fakeip.go:92-98 | Exact condition, for any address but the two reserved ones: a successful reverse lookup answers with the address looked up if and only if it is taken in the pool. |
| `FakeIp.StaleReverseLookup` | resolver/fakeip.go:92-133 | It does fail: with any prefix up to /29 and any two hosts of one checksum, there is a run from a fresh resolver after which looking up an address once given to a host answers with that host under another address. |
| `FakeIp.QueryAnswers` | resolver/fakeip.go:143-156 | A query answers with the host's own record under a taken address, and the live record if there is one; it fails if and only if there is no live record and the pool is full. |
| `FakeIp.NewContract` | resolver/fakeip.go:38-76 | Set-up succeeds for every prefix from /0 to /31 except 255.255.255.255/31, where the source fails on the address after the last; the tunnel gets the prefix's own address if usable, else the first. |
| `FakeIp.HostsShareNoAddress` | resolver/fakeip.go:100-133 | In every valid state no two cached hosts share an address. |
| `FakeIp.QueryValid` | resolver/fakeip.go:100-156 | A query keeps the invariant, including the eviction it may cause. |
| `FakeIp.FindByIpValid` | resolver/fakeip.go:92-98 | A reverse lookup keeps the invariant, although it may expire entries of both caches. |
| `FakeIp.CleanIpsValid` | resolver/fakeip.go:38-76 | Cleaning up the address cache keeps the invariant. |
| `FakeIp.SweepBalanced` | resolver/fakeip.go:78-82 | Cleaning up hosts in any order returns exactly their addresses. |
| `FakeIp.EvictBalanced` | resolver/fakeip.go:78-82 | Evicting a host and releasing its address keeps the invariant. |
| `FakeIp.EnterBalanced` | resolver/fakeip.go:100-133 | Entering a record in both caches under a newly taken address keeps the invariant. |
| `FakeIp.AllocateForTaken` | resolver/pool.go:83-101 | What claiming a given address takes, and when it fails. |
| `FakeIp.StepValid` | resolver/fakeip.go:38-156 | Every event keeps the invariant and the two reserved addresses. |
| `FakeIp.RunFrom` | resolver/fakeip.go:38-156 | So does every run. |
| `FakeIp.Resolver.constructor` | resolver/fakeip.go:38-76 | Sets up pool and caches and reserves the two addresses. |
| `FakeIp.Resolver.OnRelease` | resolver/fakeip.go:78-82 | Releases the address of each evicted record. |
| `FakeIp.Resolver.FindHost` | resolver/fakeip.go:90 | Refines the value-level lookup; an expired record frees its address. |
| `FakeIp.Resolver.MakeRecord` | resolver/fakeip.go:100-133 | Refines the value-level creation: allocate, enter in both caches, evict if full. |
| `FakeIp.Resolver.Ask` | resolver/fakeip.go:143-156 | Refines the value-level query and keeps the invariant. |
| `FakeIp.Resolver.LookUp` | resolver/fakeip.go:92-98 | Refines the value-level reverse lookup and keeps the invariant. |
| `FakeIp.Resolver.CleanUpHosts` | util/cache/cache.go:245-262 | Background clean-up of hosts keeps the invariant. |
| `FakeIp.Resolver.CleanUpIps` | util/cache/cache.go:245-262 | Background clean-up of the address cache keeps the invariant. |
| `Aead.ReadsAreWhatWasWritten` | ss/aead/stream_conn.go:67-182 | From a fresh connection, over every interleaving of writes and reads: what was read is a prefix of what was written, and all of it once nothing is in flight or left over. |
| `Aead.EveryRunFaithful` | ss/aead/stream_conn.go:67-182 | Over every interleaving of writes and reads of any sizes: written = read, then left over, then in flight; the wire is the sealed frames in flight; the writer's nonce is the reader's plus two per frame in flight. |
| `Aead.SentFaithful` | ss/aead/stream_conn.go:142-182 | A write of any size keeps that invariant. |
| `Aead.ReceivedFaithful` | ss/aead/stream_conn.go:67-83 | A read of any size keeps it and delivers as much of the left-over bytes or next frame as fits. |
| `Aead.FrameTaken` | ss/aead/stream_conn.go:32-65 | A frame of at most the maximal chunk size, followed by anything, is read back exactly. |
| `Aead.FailsIff` | ss/aead/stream_conn.go:32-65 | Every way reading a frame fails, in the order things are checked, with what is left of the stream and how often the nonce was used. |
| `Aead.SolidFlat` | ss/aead/stream_conn.go:150-151 | Skipping empty reads of a source skips no bytes. |
| `Aead.FrameTakenIff` | ss/aead/stream_conn.go:46-52 | Exact condition: a frame is read back if and only if its chunk fits the buffer; lengths above that and within one overhead pass the check and run off the buffer. |
| `Aead.IncrementAddsOne` | ss/aead/stream_conn.go:184-191 | The increment adds one modulo 256^n to the little-endian value, for every length n. |
| `Aead.IncrementByAdds` | ss/aead/stream_conn.go:184-191 | k increments add k modulo 256^n. |
| `Aead.NoncesRepeat` | ss/aead/stream_conn.go:184-191 | Two values of the counter are equal if and only if a multiple of 256^n increments lies between them. |
| `Aead.NonceOnce` | ss/aead/stream_conn.go:184-191 | Of the first 256^n values of the counter no two are equal. |
| `Aead.StreamWriter.NeverTwice` | ss/aead/stream_conn.go:142-191 | Whatever was written, with failures or without: until 256^n of them, no two sealings of a writer use the same nonce (section 3.1 of RFC 5116). |
| `Aead.IncrementInPlace` | ss/aead/stream_conn.go:184-191 | The loop over the array computes the increment, stopping at the first byte that does not wrap. |
| `Aead.StreamWriter.constructor` | ss/aead/stream_conn.go:126-135 | Buffer of the source's size, nonce zero, nothing sealed. |
| `Aead.StreamWriter.Load` | ss/aead/stream_conn.go:145-155 | Payload and length lie in the buffer where neither sealing overwrites the other. |
| `Aead.StreamWriter.SealPart` | ss/aead/stream_conn.go:142-182 | Seals a range in place under the next nonce and leaves the rest of the buffer alone. |
| `Aead.StreamWriter.SealChunk` | ss/aead/stream_conn.go:142-182 | The two sealings in one buffer yield the specified frame: neither overwrites what the other needs. |
| `Aead.StreamWriter.ReadFrom` | ss/aead/stream_conn.go:142-182 | The loop sends the frames of what the source yields, in order, up to the write that fails; bytes counted, error (of the socket or of the source), wire and nonce are given in every case. |
| `Aead.StreamWriter.WriteBytes` | ss/aead/stream_conn.go:137-140 | What a write does to wire and nonce, and the count it returns, whether or not the socket refuses a frame. |
| `Aead.StreamReader.constructor` | ss/aead/stream_conn.go:23-30 | Buffer of the source's size, nonce zero, nothing left over. |
| `Aead.StreamReader.OpenPart` | ss/aead/stream_conn.go:32-65 | Reads and opens one part in place; short and forged input are told apart. |
| `Aead.StreamReader.ReadFrame` | ss/aead/stream_conn.go:32-65 | Refines the value-level reading of a frame: payload or error, stream position and nonce in every outcome. |
| `Aead.StreamReader.ReadBytes` | ss/aead/stream_conn.go:67-83 | Refines the value-level read: left-over bytes first, otherwise the next frame, keeping what does not fit; errors with stream position and nonce. |
| `DomainTrie.TrieRefinesPatternList` | util/trie/domain.go:54-124 | Main result. For every sequence of insertions, with data or without, and every domain: a domain with an empty label is not found; otherwise a search succeeds if and only if some pattern whose latest insertion has data matches; the result precedes every other match (from the top-level label down, static before * before dot); its data is that of the latest insertion. |
| `DomainTrie.SomePatternMatches` | util/trie/domain.go:54-124 | When every insertion has data, a search succeeds if and only if some inserted pattern matches. |
| `DomainTrie.SearchFinds` | util/trie/domain.go:106-124 | What a search returns is a filed path that matches. |
| `DomainTrie.SearchPrefers` | util/trie/domain.go:106-124 | If some filed path matches, the search returns it or one that precedes it: backtracking misses nothing. |
| `DomainTrie.TableEntries` | util/trie/domain.go:54-84 | A path carries data if and only if the latest insertion under it has data, and then that data. |
| `DomainTrie.PathsWellFormed` | util/trie/domain.go:54-69 | A dot label is only ever the last of a filed path. |
| `DomainTrie.ValidAndSplitDomain` | util/trie/domain.go:24-45 | The loop accepts and splits as specified: empty inner labels, a trailing dot and the empty domain are refused. |
| `DomainTrie.Node.constructor` | util/trie/node.go:21-26 | No children, no data. |
| `DomainTrie.Trie.constructor` | util/trie/domain.go:127-129 | Nothing filed. |
| `DomainTrie.Trie.AddChild` | util/trie/node.go:17-19 | The nodes stay a tree; what is filed does not change. |
| `DomainTrie.Trie.SetData` | util/trie/domain.go:71-84 | Exactly one path changes; without data it is emptied. |
| `DomainTrie.Trie.Descend` | util/trie/domain.go:71-84 | Moves to a child, created if missing. |
| `DomainTrie.Trie.FileParts` | util/trie/domain.go:71-84 | The loop through the nodes files data under the reversed labels and changes nothing else. |
| `DomainTrie.DomainIndex.constructor` | util/trie/domain.go:127-129 | Nothing filed. |
| `DomainTrie.DomainIndex.Insert` | util/trie/domain.go:54-69 | Refuses invalid patterns; files a valid one, with data or without, under its one or two paths. |
| `DomainTrie.DomainIndex.Find` | util/trie/domain.go:106-124 | The recursion through the nodes reaches the node the value-level search names. |
| `DomainTrie.DomainIndex.Lookup` | util/trie/domain.go:91-104 | Returns the data the value-level search finds, or nothing. |
| `Patterns.PatternMeans` | util/trie/domain.go:47-69 | What every valid pattern matches, on labels: equal or * label by label; a leading dot for everything below; +. for both. |
| `Patterns.FoundAfterInsert` | util/trie/domain.go:54-104 | After one insertion a search succeeds for exactly those domains. |
| `Patterns.PlainMeansItself` | util/trie/domain.go:64-66 | On strings: an ordinary domain is found by itself and nothing else. |
| `Patterns.DotMeansBelow` | util/trie/domain.go:50-66 | On strings: .v finds exactly the domains that end in a dot and v. |
| `Patterns.StarMeansOneLabel` | util/trie/domain.go:48-66 | On strings: *.v finds exactly one label, a dot and v. |
| `Patterns.ExactComesFirst` | util/trie/domain.go:86-124 | Whatever else is filed, a domain filed as it is is found as that. |
| `Patterns.StarBeforeDot` | util/trie/domain.go:86-124 | Whatever else is filed, a domain one label below w is never found through .w while *.w is filed. |
| `Patterns.ValidIff` | util/trie/domain.go:24-45 | On strings: valid if and only if not empty, not ending in a dot, and without two dots in a row. |
| `SuffixRule.SuffixRulesMeanSuffixes` | rule/domain_suffix.go:12-32 | For values without wildcard labels, on strings: a target matches if and only if none of its labels is empty and it equals some value or ends in a dot and that value; the rule reported belongs to the longest such value, last one on ties. |
| `SuffixRule.UnderIffParts` | rule/domain_suffix.go:22-32 | On strings and on labels, being under a domain is the same thing. |
| `SuffixRule.ValueMatches` | rule/domain_suffix.go:12-20 | The path of a value that matches a target: one if the target is under it, none otherwise. |
| `SuffixRule.PreferredIsLonger` | rule/domain_suffix.go:22-32 | Of two values the target is under, the trie prefers the longer. |
| `SuffixRule.SearchableIff` | util/trie/domain.go:24-45 | A domain can be searched for if and only if none of its labels is empty. |
| `SuffixRule.SplitConcat` | util/trie/domain.go:24-45 | Splitting two strings joined by a dot is splitting each. |
| `SuffixRule.FileValues` | rule/domain_suffix.go:12-20 | The inner loop files every value of a rule. |
| `SuffixRule.BuildIndex` | rule/domain_suffix.go:12-20 | The two loops file every value of every rule, in order. |
| `SuffixRule.DomainSuffixRule.constructor` | rule/domain_suffix.go:12-20 | Holds the rules given; no result yet. |
| `SuffixRule.DomainSuffixRule.Match` | rule/domain_suffix.go:22-32 | Answers as specified and remembers the deciding rule; a missing target or no match leaves the last result. |
| `NatMap.OneSocketPerSource` | relay/udp_natmap.go:106-176 | Under every interleaving each source has at most one live socket and at most one handler. |
| `NatMap.HandlerDeletesItsOwn` | relay/udp_natmap.go:106-134 | When a handler removes its source's entry, that entry holds the handler's own socket and no other entry does. |
| `NatMap.AnswersGoHome` | relay/udp_natmap.go:106-134 | An answer reaches a source only through a socket opened for a packet of that source and, when the sender is known, only from that packet's target (the code filters only when that target prints as a non-empty string). |
| `NatMap.PacketsLeaveByTheirOwn` | relay/udp_natmap.go:140-176 | A packet that is sent leaves through a socket opened for its own source. |
| `NatMap.NothingLost` | relay/udp_natmap.go:140-176 | Under every interleaving the packets received with a readable target are, in order, those sent or dropped and then the one in hand; one is dropped only if no socket could be opened or its socket has been closed. |
| `NatMap.DroppedOnlyFor` | relay/udp_natmap.go:140-176 | Under every interleaving a packet is dropped only after opening a socket has failed, or after the handler has closed the very socket the packet was to leave by. |
| `NatMap.KnownSourceSends` | relay/udp_natmap.go:154-175 | A packet of a source with an open socket goes out through that socket. |
| `NatMap.NewSourceSends` | relay/udp_natmap.go:154-175 | A packet of a new source goes out through a new socket, stored for that source and given a handler. |
| `NatMap.AnswerCarried` | relay/udp_natmap.go:116-133 | An answer on an open socket is carried back if and only if it passes the sender filter and can be written. |
| `NatMap.HandlerEnds` | relay/udp_natmap.go:108-114 | A handler that ends closes its own socket and forgets its own source, and nothing else. |
| `NatMap.CanStop` | relay/udp_natmap.go:94-103 | Once reading fails the closing pass can be completed. |
| `NatMap.NothingLeaks` | relay/udp_natmap.go:92-103 | Although the closing pass goes over the map without a lock, one entry at a time, while handlers remove theirs: once it is over no socket is open, and once the handlers are done the map is empty. |
| `NatMap.ClosingStepSound` | relay/udp_natmap.go:94-103 | Every step of the closing pass keeps the invariant that each open socket is collected or still to be visited. |
| `NatMap.ApplySound` | relay/udp_natmap.go:92-177 | Every step of the loop or of a handler keeps the invariant of map, sockets and handlers. |
| `NatMap.RunSound` | relay/udp_natmap.go:92-177 | So does every interleaving. |
| `AddonChain.ChainRuns` | proxy-addons/context.go:26-54 | For at most 63 handlers that each call next at most once: the run ends; handlers start in order and at most once, all of them unless one stops the chain; the 8-bit cursor never overflows. |
| `AddonChain.NextRuns` | proxy-addons/context.go:26-32 | From any reachable context: the handlers started are the next consecutive ones, and none once the chain was stopped. |
| `AddonChain.PerformRuns` | proxy-addons/context.go:44-83 | What a handler that aborts, rejects or nests leaves behind for its caller. |
| `AddonChain.RejectedNeverInvoked` | proxy-addons/addons.go:54-96 | The interceptor replies, and makes the real call if and only if no started request handler rejects and the request could be copied; it reports no error exactly when nothing failed or was rejected, and otherwise the first error: of a started request handler that rejects with it, of the copy, of the call, of a started response handler. |
| `AddonChain.NextTracks` | proxy-addons/context.go:68-83 | For chains of any length: a context has an error if and only if a started handler rejects. |
| `AddonChain.NextErrs` | proxy-addons/context.go:68-83 | For chains of any length: an error in a context is one that a started handler rejects with. |
| `AddonChain.AllNextRunsIff` | proxy-addons/context.go:12-32 | Exact condition: a chain whose handlers all nest runs them all and returns if and only if there are at most 63. |
| `AddonChain.AbortHoldsIff` | proxy-addons/context.go:34 | Exact condition: aborting in the first of up to 127 handlers keeps the others from starting if and only if there are at most 64. |
| `AddonChain.AbortMayNeverEnd` | proxy-addons/context.go:26-34 | With 65 handlers an abort in the last one restarts it forever: no amount of fuel suffices. |
| `AddonChain.MoreFuelNext` | proxy-addons/context.go:26-32 | A run that ends does not depend on the fuel it was given. |
| `AddonChain.ContextT.constructor` | proxy-addons/context.go:20-24 | The cursor starts before the first handler. |
| `AddonChain.ContextT.Abort` | proxy-addons/context.go:56-65 | Moves the cursor to the sentinel. |
| `AddonChain.ContextT.Reject` | proxy-addons/context.go:68-83 | Records the error and aborts. |
| `AddonChain.ContextT.RunRest` | proxy-addons/context.go:26-32 | The re-entrant loop over the shared cursor carries out the modelled run: it returns in the modelled state, panics, or is still going when the fuel runs out. |
| `AddonChain.ContextT.RunHandler` | proxy-addons/context.go:44-83 | A handler acting on its context carries out the modelled actions, with the same three endings. |
| `SocksUdp.ThroughAllHops` | relay/udp.go:217-235 | Main result. Through real buffers, out and back: address and payload arrive unchanged if and only if header, address and payload fit the buffer. |
| `SocksUdp.OutboundRoundTrip` | relay/udp_natmap.go:60-72 | What the client wrote is unwrapped as that address and that payload. |
| `SocksUdp.InboundRoundTrip` | client/conn_wrapper.go:75-87 | What the server wrapped and the proxy client prepended is read as the payload. |
| `SocksUdp.EncodeParses` | address/address.go:78-172 | Every address built from host and port parses back whatever follows it, is at most 259 bytes (section 5 of RFC 1928), and gives back its port and its host: a name as it was, an IP address as it is printed. |
| `SocksUdp.EncodeLayout` | address/address.go:78-113 | Which hosts and ports have an address, and its bytes: type 1, 3 or 4, address or counted name, port most significant byte first. |
| `SocksUdp.PartsOf` | address/address.go:128-172 | Host and port of any bytes, and what is returned when they are cut short. |
| `SocksUdp.ParseIff` | address/address.go:51-76 | Exactly which buffers start with an address, and how long it is. |
| `SocksUdp.ReadFails` | address/address.go:18-49 | Every way reading an address fails. |
| `SocksUdp.Refused` | relay/udp.go:217-224 | Which packets the hops refuse. |
| `SocksUdp.ParseAddressFromHostPort` | address/address.go:78-113 | Builds that address in the caller's buffer; bad hosts and ports, long names and short buffers are refused, in that order. |
| `SocksUdp.ParsersAgree` | address/address.go:18-76 | The reader accepts an address if and only if the buffer parser does and the buffer can take it; every buffer of 259 bytes can. |
| `SocksUdp.ParseBuffer` | address/address.go:51-76 | A parsed address is a prefix of the buffer of 4 to 259 bytes. |
| `SocksUdp.ParseAddressFromBuffer` | address/address.go:51-76 | Branch by branch, the specified parse. |
| `SocksUdp.ParseAddressFromReader` | address/address.go:18-49 | Reading piecewise into a buffer of any size: the specified outcome, and exactly the address consumed. |
| `SocksUdp.ClientWrite` | client/conn_wrapper.go:89-100 | Header, address and payload, or out of range if they do not fit. |
| `SocksUdp.Wrap` | relay/udp_natmap.go:74-87 | The payload is moved up over itself and the address put in front, or out of range. |
| `SocksUdp.Prepend` | relay/udp.go:226-235 | The packet is moved up over itself and the header put in front; short packets are refused. |

## Left out

- AuthChain.Endpoint.Encode: models sending once the first-packet header (`packAuthData`) is out; nothing in the repository reads that header.
- PaddedAuth.Endpoint.Encode: likewise, without the header branch.
- XorShift.XorShift128Plus.InitFromBinAndLength: takes at least 16 bytes; it is only ever given digests, and what shorter slices do depends on their capacity.
- The packet variants of the framing protocols (`EncodePacket`, `DecodePacket`): single packets without stream state.
- Real cryptography, checksums and random generators, apart from the xorshift generator: arbitrary functions here.
- AuthChain.Endpoint.constructor: takes the digests the header fixes as parameters; the source has none before the header is sent.
- AuthChain.Endpoint.AppendRandBytes: the random source is a tape of arbitrary values, so the distribution of padding is not modelled; likewise the floating-point `trapezoidRandom`, which is any value in its range.
- Lru.LruCache.Lookup: one atomic step; the source releases its lock between finding an expired entry and deleting it, so the statements are about sequential runs. The linked list is a sequence of keys.
- `deleteOverflow` of the cache: nothing calls it.
- ChainPadding.SortInts: the library sort is replaced by insertion; only its result matters.
- Aead.StreamWriter.ReadFrom: what a source yields, read by read, is given as a list.
- `WriteTo` of the authenticated reader: repeats the read loop into a writer.
- NatMap.ApplySound: the relay is a state machine on values whose steps are the source's actions on shared state, so it has no buffers and no memory model below those actions. The steps are atomic because the source takes a lock around each map access; the closing pass, which takes none, is split into its visits and closings. That the Go runtime may abort a program that iterates over a map while it changes is not modelled.
- AddonChain.RejectedNeverInvoked: models the HTTP interceptor; the WebSocket one has the same shape. Handlers are finite lists of actions on their context, and the contents of requests are left out.
- AddonChain.ContextT.RunRest: the fuel bounds nested and consecutive handlers; by `AddonChain.MoreFuelNext` runs that end do not depend on it.
- IpPool.AddressPool.constructor: IPv4 prefixes only; masks and shifts are written as powers of two.
- SocksUdp.EncodeParses: recognising and printing IP literals are parameters.
- SocksUdp.ParseAddressFromReader: a buffer has no capacity beyond its length.
- SocksUdp.ThroughAllHops: the branch of the proxy client with a fixed remote address is left out; it strips by the length of another address.
- TlsTicket.TicketConn.SendHello: the contents of the client hello are a parameter.
- Plain stream ciphers (`ss/stream`, `salsa20`): one of them restarts its keystream on every call.
- Transports, dialers, TLS and certificates, DNS messages, geoip, configuration, command line, logging: plumbing over libraries.

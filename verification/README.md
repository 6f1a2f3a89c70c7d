# Verified model of a Trezor Host Protocol client

The library modelled here talks to a Trezor over fixed-size Bluetooth packets. It hand-writes the Trezor Host
Protocol: framing with a CRC, the Alternating Bit Protocol, a bespoke Noise handshake, an AES-GCM session, the
Elligator2 map used in pairing, and above them chain translations and a client that keeps one connection open
between operations. This project states and proves what those parts promise, for all inputs and all runs.
`dafny verify dfyconfig.toml` checks all of it.

| files | part |
|---|---|
| `NumberTheory`, `Elligator` | Fermat's theorem, squares modulo p, the map of section 6.7.1 of RFC 9380 and its straight-line form (Appendix G.2.1) |
| `FieldElement`, `FieldPowers`, `FieldBytes`, `MapToCurve` | the 51-bit limb code, in machine words, refined to integers modulo 2^255 - 19 and then to that map |
| `Crc`, `CrcPolynomial`, `Framing`, `FramingBytes`, `FramingBursts` | CRC-32, packets and their bytes, the reassembler, and which damage it notices |
| `Control`, `Session`, `Connection` | the driver as the source runs it |
| `Protocol`, `ProtocolRuns`, `DriverRuns` | every run against a stop-and-wait device, and the driver's loops as such runs |
| `Wire` | the driver's frames as chunks of the transport |
| `Noise`, `Transcript`, `Handshake`, `HandshakeRuns` | the handshake machines over ideal primitives, what they send written out, agreement, authentication, key and IV use; the handshake as the first two rounds of a run |
| `Rlp`, `Bitcoin`, `BitcoinAnswers`, `BitcoinStreaming`, `Bip32`, `Client` | envelopes, PSBT streaming, derivation paths, the pinned connection |
| `Results`, `Words` | result types; machine words, byte strings, bit operations |

What the model takes as given:

- Shifts and masks of machine words are written as multiplication, division and remainder by powers of two; words are
  `newtype`s, so every operation is also proved not to overflow or underflow. `usize` is 64 bits wide.
- The AEAD opens a ciphertext only under the key, IV and associated data it was sealed with. Hashes and MACs are free
  constructors. X25519 multiplies exponents in a cyclic group of any order, with any map from scalars to exponents
  and any discrete logarithm for foreign points; that shared secrets agree is then a theorem.
- The device of the protocol runs is stop-and-wait: it may reply before or without acknowledging, resend a reply until it is
  acknowledged, and lose what it sends. The queue to the device is lossless, because the host never sends again. After
  allocation only acknowledgements and data of the one channel appear.
- Session counters wrap as in a release build; a debug build panics there.
- Handshake messages and frame payloads are written down in any way that reads back what was written. A device answers an
  operation from the wallet, the operation's own messages and what its user does, not from earlier operations.
- That 2^255 - 19 is prime is a named hypothesis, `Prime(P)`, of the conclusions that need it.
- Randomness, clocks, the transport, protobuf encoding, DER parsing, transaction ids and addresses are parameters.

Where the sources disagree with each other the code is followed. The repository's README and the comment on
`TrezorClient` call the methods unimplemented and name ChaCha20-Poly1305 and `snow`; the code implements them, with
AES-256-GCM and its own handshake. The comment on the client's `sign_psbt` calls legacy inputs unsupported; the streaming loop
answers for them.

What the proofs show the code not to do, each with its exact condition:

- A send may complete before the device has the request: data that arrives meanwhile counts as its acknowledgement even
  when it is an old reply resent. `ProtocolRuns.SafeCompletionIff` says which completing frames are safe, in terms of
  what the host sees; `ProtocolRuns.ImplicitAckBeforeDelivery` is a run with an unsafe one. While the link to the device is
  lossless the request still arrives, and `ProtocolRuns.Safety` holds.
- A burst that spans payload and trailer can pass, because the reflected CRC is sent big-endian:
  `FramingBursts.DamageAcceptedIff`, and for every payload `FramingBursts.SpanningBurstIsAccepted`.
- Decoding and encoding 32 bytes does not always give them back with their top bit cleared, as it does on the one vector the
  repository checks: `FieldBytes.Reencode`, and `FieldBytes.ReencodeP`.
- Of a chain id longer than eight bytes only the last eight count: `Rlp.WideChainIdIsReduced`, and `Rlp.NineByteChainId`.
- A host key of the wrong length is not refused while a pinned connection serves the wallet: `Client.PinningShowsIff`, and
  `Client.ShortKeyPassesOnce`. A passphrase typed on the device is asked for again only when the slot does not serve the
  wallet: `Client.SeedsAgainIff`, and `Client.OnDeviceAsksOnce`.
- A control byte with its high bit set is packed without complaint, and an idle reassembler drops it:
  `Framing.IdleDeliversIff`, and `Framing.HighBitIsLost`.
- `m/m` and its like are taken for the root: `Bip32.EmptyPathIff`, and `Bip32.SecondRootIsTaken`. A component may carry a plus
  sign: `Bip32.ComponentIff`.
- A key and IV come back past a turn of a counter: `Handshake.NoKeyAndIvTwice`, with the exact message counts.

## Model

| member | source | states |
|---|---|---|
| NumberTheory.Fermat | trezor-core/src/thp/elligator2.rs:226-238 | for a prime p and a not divisible by it, a^(p-1) is 1 modulo p, which is what makes x^(p-2) an inverse |
| Elligator.TwoIsNotSquare | trezor-core/src/thp/elligator2.rs:265-267 | 2 is not a square modulo a prime p with p = 8k + 5 and i^2 = -1 |
| Elligator.DenominatorIsNonZero | trezor-core/src/thp/elligator2.rs:265-267 | 1 + 2u^2 is never 0 modulo p |
| Elligator.CandidateWorksIff | trezor-core/src/thp/elligator2.rs:279-299 | the two root tests together succeed exactly when the base raised to (p-1)/2 is 1 |
| Elligator.TestDecidesSquare | trezor-core/src/thp/elligator2.rs:270-299 | they succeed exactly when g(x1) is a square modulo p, with no division done |
| Elligator.OneCandidateIsSquare | trezor-core/src/thp/elligator2.rs:292-299 | when g(x1) is no square, g(-x1 - J) is one |
| Elligator.StraightLineIsRfcMap | trezor-core/src/thp/elligator2.rs:259-302 | the straight-line computation is the map defined by section 6.7.1 of RFC 9380, and its result lies on the curve |
| FieldElement.Reduce | trezor-core/src/thp/elligator2.rs:21-38 | for any limbs, the same value modulo p with limbs just above 51 bits |
| FieldElement.Add | trezor-core/src/thp/elligator2.rs:128-136 | the exact sum, with the sum of the limb bounds, where no limb overflows |
| FieldElement.Sub | trezor-core/src/thp/elligator2.rs:138-148 | the difference modulo p, with no underflow for limbs up to those of 16p |
| FieldElement.Neg | trezor-core/src/thp/elligator2.rs:150-152 | the negative modulo p under the same bound |
| FieldElement.Columns | trezor-core/src/thp/elligator2.rs:154-170 | each 128-bit column is the exact convolution with the wrapped terms times 19, and none overflows |
| FieldElement.Mul | trezor-core/src/thp/elligator2.rs:154-186 | for limbs below 2^54, the product modulo p with limbs below 2^51 + 2^13, carries included |
| FieldElement.RootSquaredIsMinusOne | trezor-core/src/thp/elligator2.rs:50-59 | the stored constant squares to -1 modulo p |
| FieldElement.BasePointIsOnCurve | trezor-core/src/thp/elligator2.rs:262 | the coefficient is that of the curve on which the base point of section 4.1 of RFC 7748 lies |
| FieldPowers.Pow2k | trezor-core/src/thp/elligator2.rs:192-198 | k squarings raise to the power 2^k |
| FieldPowers.Pow22501 | trezor-core/src/thp/elligator2.rs:202-224 | the addition chain gives exactly x^(2^250 - 1) and x^11 |
| FieldPowers.Invert | trezor-core/src/thp/elligator2.rs:227-231 | the power p - 2 |
| FieldPowers.InvertInverts | trezor-core/src/thp/elligator2.rs:226-231 | that power is the inverse of every non-zero element, p being prime |
| FieldPowers.PowP58 | trezor-core/src/thp/elligator2.rs:234-238 | the power (p - 5)/8 |
| FieldBytes.FromBytes | trezor-core/src/thp/elligator2.rs:61-70 | the overlapping loads and shifts give the little-endian number modulo 2^255 |
| FieldBytes.ToBytes | trezor-core/src/thp/elligator2.rs:72-126 | for any limbs, 32 bytes that spell the value modulo p |
| FieldBytes.Reencode | trezor-core/src/thp/elligator2.rs:316-322 | decoding and encoding reduces modulo p after clearing the top bit, and is the identity exactly below p |
| FieldBytes.ReencodeP | trezor-core/src/thp/elligator2.rs:61-126 | the 32 bytes that spell p decode and encode again as 32 zeros |
| FieldBytes.CtEq | trezor-core/src/thp/elligator2.rs:240-242 | true exactly when two elements are congruent modulo p |
| MapToCurve.Denominator | trezor-core/src/thp/elligator2.rs:265-267 | 2u^2 and 2u^2 + 1, with the limb bounds that their two unreduced sums have |
| MapToCurve.CurveNumerator | trezor-core/src/thp/elligator2.rs:273-276 | the numerator of g(x1), weakly reduced |
| MapToCurve.MapElement | trezor-core/src/thp/elligator2.rs:260-301 | the numerator chosen times the inverse of the denominator, weakly reduced |
| MapToCurve.MapToCurve25519 | trezor-core/src/thp/elligator2.rs:259-303 | for every 32 bytes, the canonical encoding of the straight-line result, which for prime p is the RFC's point and on the curve |
| Crc.Crc32Ieee | trezor-core/src/thp/framing.rs:106-116 | the register loop computes the checksum function |
| Crc.ChecksumOfOnes | trezor-core/src/thp/framing.rs:106-118 | the register starts with ones and the result is complemented: nothing gives 0, and one byte FF gives FF000000 |
| Crc.StepLinear | trezor-core/src/thp/framing.rs:110-113 | one shift of the register is linear |
| Crc.FeedBytesAreFeedBits | trezor-core/src/thp/framing.rs:106-116 | whole bytes injected at once are their bits fed one by one, lowest first |
| Crc.BurstChangesCrc | trezor-core/src/thp/framing.rs:106-116 | every change confined to 32 consecutive bits changes the checksum, at any length and position |
| CrcPolynomial.DivisionUnique | trezor-core/src/thp/framing.rs:102-105 | long division over the two-element field yields the only quotient and remainder |
| CrcPolynomial.DivisorIsIeeeGenerator | trezor-core/src/thp/framing.rs:102-113 | the constant is the IEEE 802.3 generator with its powers reversed |
| CrcPolynomial.CrcIsRemainder | trezor-core/src/thp/framing.rs:102-116 | the complemented checksum is the one remainder of the inverted-prefix message times x^32 by that generator |
| Framing.Segment | trezor-core/src/thp/framing.rs:127-184 | exactly when it fails, and otherwise the packets of payload and checksum, each of the packet size |
| FramingBytes.PacketsAreWritten | trezor-core/src/thp/framing.rs:127-184 | every byte of every packet: ctrl, channel and length high byte first, 80 and the channel in each continuation, and behind the headers the payload, the checksum of header and payload, and zeros short of a packet |
| FramingBytes.PacketIsTaken | trezor-core/src/thp/framing.rs:207-280 | what any packet does to a reassembler in any state, by its bytes: which are errors or dropped and change nothing, and when the payload is complete and delivered |
| Framing.Reassembler.PushPacket | trezor-core/src/thp/framing.rs:206-259 | the new state and outcome for every packet, with the buffer always short of the announced length while active |
| Framing.Reassembler.CheckAndStrip | trezor-core/src/thp/framing.rs:261-281 | the checksum comparison over the rebuilt header |
| Framing.FinishAccepts | trezor-core/src/thp/framing.rs:261-281 | a byte string is accepted with a payload exactly when it is what the segmenter writes for it |
| Framing.RoundTrip | trezor-core/src/thp/framing.rs:193-259 | from any reachable state, silence until the last packet and then exactly the payload |
| Framing.IdleDeliversIff | trezor-core/src/thp/framing.rs:211-217 | an idle reassembler delivers exactly when the control byte has its high bit clear |
| Framing.HighBitIsLost | trezor-core/src/thp/framing.rs:211-217 | a message with the high bit set is packed and lost |
| Framing.DamagedPayloadIsRefused | trezor-core/src/thp/framing.rs:277-279 | a payload damaged within 32 consecutive bits ends in an error, however it is cut |
| FramingBursts.DamageAcceptedIff | trezor-core/src/thp/framing.rs:261-281 | a changed payload with a changed trailer is accepted exactly when the trailer's change is what the register makes of the payload's |
| FramingBursts.OneSidedDamageIsRefused | trezor-core/src/thp/framing.rs:261-281 | a burst in the payload alone, and any change of the trailer alone, is refused |
| FramingBursts.SpanningBurstIsAccepted | trezor-core/src/thp/framing.rs:149-151 | for every non-empty payload, a burst of at most 32 bits across the boundary that is accepted |
| Framing.ReadMessage | trezor-core/src/thp/connection.rs:130-148 | reads one whole message off a list of chunks |
| Framing.WrittenIsRead | trezor-core/src/thp/connection.rs:120-148 | what is written is read, behind empty chunks and stale continuations, the chunks after it untouched |
| Wire.ManyAreRead | trezor-core/src/thp/connection.rs:120-148 | any number of messages written one after another are read back one by one, the chunks behind them untouched |
| Wire.FramesAreRead | trezor-core/src/thp/connection.rs:120-148 | the same for the driver's frames |
| Wire.TransceiveOverChunks | trezor-core/src/thp/connection.rs:120-332 | a whole transceive over the chunks that the device's frames of a run were cut into returns the device's reply to the last request |
| Control.BitsReadBack | trezor-core/src/thp/framing.rs:68-95 | sequence and acknowledgement bits read back as written, and data never looks like an acknowledgement |
| Control.SeqBitOnly | trezor-core/src/thp/framing.rs:68-78 | setting the sequence bit changes only that bit |
| Control.ControlBytes | trezor-core/src/thp/framing.rs:43-95 | the acknowledgements are 20 and 28, the error report 42, continuations start at 80, and the data messages have their numbers with and without bit 10 |
| Session.IvIsWritten | trezor-core/src/thp/session.rs:32-36 | the twelve bytes of the IV of every nonce |
| Session.IvIsInjective | trezor-core/src/thp/session.rs:32-36 | different nonces give different IVs |
| Session.OpensOnlyAtItsNonce | trezor-core/src/thp/session.rs:76-99 | a ciphertext opens exactly under the key and at the nonce it was sealed with |
| Session.Session.SealMessage | trezor-core/src/thp/session.rs:76-85 | the ciphertext under the current nonce, and the counter one further |
| Session.Session.OpenMessage | trezor-core/src/thp/session.rs:90-99 | the counter moves only on success |
| Session.AppMessageIsWritten | trezor-core/src/thp/session.rs:104-111 | the session id and the message type, high byte first, in front of the message |
| Session.AppMessageRoundTrip | trezor-core/src/thp/session.rs:104-124 | decoding an application message inverts encoding |
| Session.DecodedIsEncoding | trezor-core/src/thp/session.rs:114-124 | every payload of three bytes or more is the encoding of what it decodes to |
| Connection.Driver.SendDataMessage | trezor-core/src/thp/connection.rs:158-189 | sending until the acknowledgement or the implicit one, as iterated single-frame steps |
| Connection.Driver.RecvDataMessage | trezor-core/src/thp/connection.rs:191-211 | the stash first, then fresh data, duplicates acknowledged again |
| Connection.Driver.RecvAppMessage | trezor-core/src/thp/connection.rs:288-297 | opening and decoding what was received, with every error path |
| Connection.Driver.TransceiveMessage | trezor-core/src/thp/connection.rs:315-332 | button requests answered until a reply or a failure, terminating on every finite input |
| Connection.Driver.TransceiveOn | trezor-core/src/thp/connection.rs:302-310 | the same on a chosen session |
| Connection.Driver.CreateSeededSession | trezor-core/src/thp/connection.rs:340-364 | runs on session 1, and the wallet's key is remembered exactly when the device answers Success |
| Connection.AppMessageOnTheLink | trezor-core/src/thp/connection.rs:273-284 | the frame an application message goes out in: its control byte, the key and nonce it is sealed with, and its header |
| Connection.RepliesAreNumbered | trezor-core/src/thp/connection.rs:315-332 | 26 is answered with 27 and awaited again, 3 is an error, every other message is the reply |
| Connection.WaitsEnd | trezor-core/src/thp/connection.rs:130-148 | an error report, and a link with nothing more to deliver, end a send and a receive |
| Protocol.StepKeepsInv | trezor-core/src/thp/connection.rs:158-211 | every step of host, device and queues keeps the protocol invariant |
| ProtocolRuns.Safety | trezor-core/src/thp/connection.rs:158-270 | in every run the payloads received are a prefix of the replies and those accepted a prefix of the requests, at most one behind, and nothing fails |
| ProtocolRuns.SessionInStep | trezor-core/src/thp/connection.rs:273-297 | the k-th text opened is the device's k-th reply, both nonces equal their message counts, and every request opens at its own nonce |
| ProtocolRuns.StashAndBits | trezor-core/src/thp/connection.rs:158-211 | the stash is empty whenever a send starts, and the bits are the parities of completed sends and accepted messages |
| ProtocolRuns.ExplicitAckMeansAccepted | trezor-core/src/thp/connection.rs:163-169 | an acknowledgement that completes a send is the one for that request, which the device has accepted |
| ProtocolRuns.SafeCompletionIff | trezor-core/src/thp/connection.rs:161-187 | a completing frame belongs to the request being sent exactly when it is an acknowledgement or data with the bit expected, and then the device has accepted the request |
| ProtocolRuns.ImplicitAckBeforeDelivery | trezor-core/src/thp/connection.rs:170-187 | a run in which a resent reply completes a send whose request is still under way |
| ProtocolRuns.CanAlwaysFinish | trezor-core/src/thp/connection.rs:158-211 | from every reachable state the exchange can still complete, with whatever the device has to reply |
| DriverRuns.RoundIsDriven | trezor-core/src/thp/connection.rs:158-211 | a round of any run is one send and receive of the driver over the frames heard: same bits, stash, frames said and payload |
| DriverRuns.HandshakeRound | trezor-core/src/thp/connection.rs:261-268 | a handshake request and its round are one send and one receive, which returns what was delivered |
| DriverRuns.RoundIsSendAndReceive | trezor-core/src/thp/connection.rs:273-297 | a request and its round are one send and one receive of application messages |
| DriverRuns.TransceiveIsDriven | trezor-core/src/thp/connection.rs:315-332 | a transceive with any number of button requests returns what the last text opened says, and leaves the driver as the run left the host |
| DriverRuns.TransceiveReturnsTheReply | trezor-core/src/thp/connection.rs:315-332 | that text is the device's reply to the last request |
| DriverRuns.EveryRunIsTurns | trezor-core/src/thp/connection.rs:158-332 | every run with a session installed is made of such rounds |
| Noise.HostHandshake.InitRequestPayload | trezor-core/src/thp/noise.rs:179-184 | the host's ephemeral public key and the unlock byte |
| Noise.HostHandshake.ReadInitResponse | trezor-core/src/thp/noise.rs:189-242 | the completion request and new secrets, or an error that changes nothing |
| Noise.HostHandshake.ReadCompletionResponse | trezor-core/src/thp/noise.rs:246-265 | the session keys, or an error |
| Noise.TrezorResponder.HandleInitRequest | trezor-core/src/thp/noise.rs:304-341 | the responder's first answer, with the masked static key |
| Noise.TrezorResponder.HandleCompletionRequest | trezor-core/src/thp/noise.rs:344-370 | its second answer and the keys, or refusal, also of a payload that does not decode |
| Transcript.NameIsWritten | trezor-core/src/thp/noise.rs:34 | the protocol's name, letter by letter |
| Transcript.RequestIsWritten | trezor-core/src/thp/noise.rs:179-184 | the host's first message as a term of the primitives |
| Transcript.ResponseIsWritten | trezor-core/src/thp/noise.rs:304-341 | the responder's first answer to any request, in hashes, MACs and exponents alone: both keys, the associated data, the masked key |
| Transcript.CompletionIsWritten | trezor-core/src/thp/noise.rs:189-242 | exactly which responses the host accepts, and the two parts it sends back, in the same terms |
| Transcript.AnswerIsWritten | trezor-core/src/thp/noise.rs:344-370 | exactly which completion requests the responder accepts, its second answer, and both session keys |
| Transcript.KeysAreWritten | trezor-core/src/thp/noise.rs:246-265 | exactly which last answers the host accepts, and both session keys |
| Handshake.MaskedDhCommutes | trezor-core/src/thp/noise.rs:325-333 | the two ways of reaching the masked shared secret agree |
| Handshake.ResponseAgreement | trezor-core/src/thp/noise.rs:189-220 | reading an untampered response, the host holds the responder's transcript hash, chaining key and key |
| Handshake.Agreement | trezor-core/src/thp/noise.rs:409-438 | every untampered exchange completes with equal request and response keys, and the responder has the host's static key and payload |
| Handshake.ResponseAcceptedIff | trezor-core/src/thp/noise.rs:189-218 | an honest response is accepted exactly when both hashed the same properties, host key and unlock byte under the responder's ephemeral key |
| Handshake.SplicedTagAcceptedIff | trezor-core/src/thp/noise.rs:211-218 | a tag from another run is accepted only if it is the very tag of this one |
| Handshake.CompletionAcceptedIff | trezor-core/src/thp/noise.rs:344-358 | the responder accepts a completion exactly when the host answered the response it sent |
| Handshake.NoKeyAndIvTwice | trezor-core/src/thp/session.rs:64-99 | no key and IV seal twice over a handshake and its messages, up to exactly 2^64 requests and 2^64 - 1 responses |
| HandshakeRuns.AgreementOverRuns | trezor-core/src/thp/connection.rs:255-270 | in every run whose first two rounds carry the handshake, the first reply is read exactly when both ends know the same properties, the device completes, and the host finishes with the device's keys |
| HandshakeRuns.SessionFromHandshake | trezor-core/src/thp/session.rs:64-74 | the session of such a run has the keys the host derived, and its nonces are the handshake's moved on by the messages so far |
| HandshakeRuns.Perform | trezor-core/src/thp/connection.rs:255-270 | the driver's handshake: two sends, two receives, the host machine in between, every error path |
| HandshakeRuns.HandshakeIsDriven | trezor-core/src/thp/connection.rs:255-270 | over what it hears in two rounds of a run, however the device's steps fall, the driver's handshake returns the keys the device derived |
| HandshakeRuns.HandshakeIsRefused | trezor-core/src/thp/connection.rs:264-265 | with different properties it returns an error on the first reply and says nothing more |
| HandshakeRuns.HandshakeCanComplete | trezor-core/src/thp/connection.rs:255-270 | from every state of a handshake played so far a session can still be reached |
| Rlp.BeToU64 | trezor-core/src/chains/ethereum.rs:330-336 | the big-endian value modulo 2^64 |
| Rlp.RlpReadLen | trezor-core/src/chains/ethereum.rs:315-328 | a length prefix and the cursor behind it, or an error |
| Rlp.RlpRead | trezor-core/src/chains/ethereum.rs:290-312 | one item and the cursor behind it, or an error, never outside the buffer |
| Rlp.RlpDecodeList | trezor-core/src/chains/ethereum.rs:271-286 | the items of a list, the loop ending on every input |
| Rlp.DecodeEip1559Envelope | trezor-core/src/chains/ethereum.rs:245-266 | the transaction of an envelope, or an error |
| Rlp.ReadIff | trezor-core/src/chains/ethereum.rs:290-312 | an item is read exactly when the bytes up to its end are an encoding of it by the grammar |
| Rlp.DecodeListIff | trezor-core/src/chains/ethereum.rs:271-286 | a list is decoded exactly when encodings of its items tile its payload without gap or overlap |
| Rlp.EnvelopeIff | trezor-core/src/chains/ethereum.rs:245-266 | exactly which envelopes are accepted, and which item becomes which field |
| Rlp.CatAndDog | trezor-core/src/chains/ethereum.rs:271-312 | the documented encoding of a list of two strings is decoded |
| Rlp.MinimalBe | trezor-core/src/chains/ethereum.rs:390-398 | the minimal big-endian bytes of a number |
| Rlp.EnvelopeRoundTrip | trezor-core/src/chains/ethereum.rs:353-436 | decoding the encoding of any transaction returns it, with any access list and anything behind it |
| Rlp.WideChainIdIsReduced | trezor-core/src/chains/ethereum.rs:256-257 | a chain id is kept exactly when all but its last eight bytes are zero |
| Rlp.EnvelopeReducesChainId | trezor-core/src/chains/ethereum.rs:245-266 | an envelope decodes as if its chain id had nothing in front of its last eight bytes |
| Rlp.NineByteChainId | trezor-core/src/chains/ethereum.rs:256-257 | 2^64 + 1 is read as chain 1 |
| Bitcoin.FindPrevTx | trezor-core/src/chains/bitcoin.rs:440-457 | a carried transaction with the displayed id asked for, or an error exactly when none has it |
| Bitcoin.MergeSignatures | trezor-core/src/chains/bitcoin.rs:294-313 | the merged inputs, or an error exactly when some signature cannot be merged |
| Bitcoin.CollectSignatures | trezor-core/src/chains/bitcoin.rs:233-288 | the signatures collected and the answers sent, for every sequence of replies |
| Bitcoin.SignPsbt | trezor-core/src/chains/bitcoin.rs:205-316 | the header, the answers and the signed PSBT |
| BitcoinAnswers.HeaderIsWritten | trezor-core/src/chains/bitcoin.rs:213-225 | the opening message, field by field |
| BitcoinAnswers.InputIsAnswered | trezor-core/src/chains/bitcoin.rs:328-384 | exactly when a request for an input is answered, and every field of the answer, the script type by the path's purpose |
| BitcoinAnswers.OutputIsAnswered | trezor-core/src/chains/bitcoin.rs:386-425 | the same for an output, by its path or by its address |
| BitcoinAnswers.PrevIsAnswered | trezor-core/src/chains/bitcoin.rs:460-522 | the same for the head, an input and an output of a previous transaction |
| BitcoinAnswers.PrevIsFound | trezor-core/src/chains/bitcoin.rs:440-457 | the transaction found under an id is the first one carried whose id, read backwards, is that; none exactly when there is none |
| BitcoinAnswers.OthersAreRefused | trezor-core/src/chains/bitcoin.rs:252-288 | unknown ids, the head of the transaction being signed, and other types of request are errors |
| BitcoinAnswers.FinishingIff | trezor-core/src/chains/bitcoin.rs:249-262 | type 3, and a missing type, end the exchange |
| BitcoinStreaming.CollectedIsLast | trezor-core/src/chains/bitcoin.rs:243-248 | what the map holds for an input is the last signature received for it |
| BitcoinStreaming.SignatureConservation | trezor-core/src/chains/bitcoin.rs:233-315 | exactly when signing succeeds; then each input gains its last signature under its first derivation key, and nothing else changes |
| BitcoinStreaming.LastSignatureIff | trezor-core/src/chains/bitcoin.rs:243-248 | the signature that stays for an input is carried by a reply for it, with no other behind |
| BitcoinStreaming.SigningSucceedsIff | trezor-core/src/chains/bitcoin.rs:249-313 | signing succeeds exactly when all requests were answered and every last signature parses and names an input with a derivation |
| BitcoinStreaming.SigningOnlyAdds | trezor-core/src/chains/bitcoin.rs:294-315 | an input with a last signature holds it, with its sighash flag, under its first derivation key; every other entry, every other part of the input, and every other input is as it was |
| BitcoinStreaming.LogIff | trezor-core/src/chains/bitcoin.rs:233-288 | requests are answered one by one in their order, up to the first that ends the exchange or cannot be answered |
| BitcoinStreaming.SigningEnds | trezor-core/src/chains/bitcoin.rs:233-262 | signatures are returned only behind a request to finish with nothing but requests before it |
| BitcoinStreaming.StreamIsFaithful | trezor-core/src/chains/bitcoin.rs:233-288 | every answer of a run is the answer its request calls for |
| BitcoinStreaming.StreamingFidelity | trezor-core/src/chains/bitcoin.rs:219-425 | in any request order, the device puts together the version, lock time, outpoints, sequences and amounts of the unsigned transaction |
| BitcoinStreaming.PrevTxFidelity | trezor-core/src/chains/bitcoin.rs:440-522 | what it collects about a hash is a whole transaction with exactly that id |
| BitcoinStreaming.SpentAmountChecks | trezor-core/src/chains/bitcoin.rs:194-200 | for a PSBT that carries its previous transactions, the amount sent for an input is that of the output it spends in the transaction the device collected |
| BitcoinStreaming.ChangeIff | trezor-core/src/chains/bitcoin.rs:386-425 | an output is presented as the wallet's own exactly when the PSBT has a derivation for it, and otherwise by its script's address |
| Bip32.ParsePath | trezor-core/src/bip32.rs:13-52 | the child numbers of a text, or an error |
| Bip32.ComponentIff | trezor-core/src/bip32.rs:25-49 | a component is accepted exactly in one written form, with that value |
| Bip32.MarkIff | trezor-core/src/bip32.rs:31-38 | behind digits, the apostrophe, h and H make a component hardened, and every other character an error |
| Bip32.SpaceIff | trezor-core/src/bip32.rs:14 | the 25 characters that are white space |
| Bip32.PathIff | trezor-core/src/bip32.rs:13-52 | a text is accepted exactly when it is written as components between slashes, or is one of the texts for the root |
| Bip32.UsualPath | trezor-core/src/bip32.rs:69-77 | m/44'/60'/0'/0/0 has its five numbers |
| Bip32.PathRoundTrip | trezor-core/src/bip32.rs:10-52 | every vector of child numbers reads back, with any marks, prefix and outer white space |
| Bip32.EmptyPathIff | trezor-core/src/bip32.rs:14-21 | the parser yields the empty path exactly on nine texts, up to outer white space |
| Bip32.SecondRootIsTaken | trezor-core/src/bip32.rs:14-21 | the second root among them |
| Client.KeyIsInjective | trezor-core/src/client.rs:84-88 | the three kinds of wallet have different keys |
| Client.TrezorClient.Ensure | trezor-core/src/client.rs:77-109 | reuse, replacement or failure of the pinned connection |
| Client.TrezorClient.IdentifyPaired | trezor-core/src/client.rs:227-257 | the identity operation and what it leaves in the slot |
| Client.TrezorClient.DeriveOperation | trezor-core/src/client.rs:372-414 | any seed-deriving operation, as a script that picks each message from the path and the replies so far: what it sends on session 1, how it ends, and what it leaves in the slot |
| Client.EveryRun | trezor-core/src/client.rs:77-109 | over every sequence of operations, every channel is new, seed-deriving messages run on session 1 of a channel last seeded with the wallet asked for, identification on session 0 of one for the standard wallet, and the slot holds only seeded connections |
| Client.SlotAfter | trezor-core/src/client.rs:245-256 | exactly when the slot holds a connection after an operation, and for which wallet: behind a success and an identity left out; a malformed path changes nothing |
| Client.AnswerIsFromTheWallet | trezor-core/src/client.rs:541-572 | an operation ends as its script does on the wallet asked for, and fails outright exactly when the slot does not serve the wallet and no channel can be opened |
| Client.CustomPathIsUsed | trezor-core/src/client.rs:39-44 | a path written by the caller takes the place of the standard one, and one that does not parse ends the operation with nothing changed |
| Client.OperationIff | trezor-core/src/client.rs:372-414 | exactly when an operation answers, and what: when its wallet is served or opens, and its script and the device can talk to that answer on its path |
| Client.TalkIsLogged | trezor-core/src/client.rs:372-414 | the device has seen exactly the messages of that talk, on session 1 |
| Client.IdentityIff | trezor-core/src/client.rs:227-257 | an identification returns exactly the identity reported, over the standard wallet's connection and session 0 |
| Client.PinnedRefinesFresh | trezor-core/src/client.rs:92-108 | whatever happened before, success on any of the three kinds of wallet returns what a fresh connection returns, with the passphrase typed that was typed for the pinned one |
| Client.PinningShowsIff | trezor-core/src/client.rs:97-106 | whatever goes wrong, pinning shows exactly while the slot serves the wallet, and then only where no fresh connection could be made for a successful operation, or another passphrase typed now would end it differently |
| Client.ShortKeyPassesOnce | trezor-core/src/client.rs:97-106 | behind any successful operation on a wallet the host chooses, the same with a 31-byte key gets the same answer, where a fresh client refuses it |
| Client.SeedsAgainIff | trezor-core/src/client.rs:84-108 | a wallet is opened anew, with its own passphrase and entry flag, exactly when the path is well formed, the slot does not serve it and a channel can be opened; and at most once |
| Client.OnDeviceAsksOnce | trezor-core/src/client.rs:92-105 | any further operation on a pinned on-device wallet runs on the passphrase first typed |

## Left out

- MapToCurve.MapToCurve25519: its agreement with the RFC's map is stated for prime p; the primality of 2^255 - 19 is not proved.
- Bitcoin.MergeSignatures: entries are merged in any order, because errors carry no text here; which error is reported first is not modelled.
- BitcoinStreaming.StreamingFidelity: leaves out the scripts of external outputs, which the device sees as addresses; transactions are taken to have fewer than 2^32 inputs and outputs, as the message counts do.
- The messages of the single chain operations, but for Bitcoin signing: an operation of the client is any script of messages.
- Rlp.RlpRead: models a 64-bit `usize`; on a 32-bit target a length prefix of more than four bytes would lose its high bytes.
- Framing.ReadMessage: chunks are a given list and running out is a transport error; writing is modelled by the packets alone.
- X25519, SHA-256, HMAC and AES-GCM internals, protobuf encoding, Base64 and DER parsing: library code, taken as ideal or as parameters.
- Channel allocation: its bounded search for a matching nonce; the runs start behind it, with both bits zero.
- Channel identifiers, PING/PONG and frames of other channels after allocation: the driver does not separate them.
- Resending by the host, timeouts and liveness on a lossy link to the device: the driver does not implement them.
- Solana and Tron messages, CPace, code-entry pairing, the probe: message choreography without state of its own.
- Error texts, logging, the async runtime, mutex, cancellation, UniFFI bindings, build scripts and packaging.

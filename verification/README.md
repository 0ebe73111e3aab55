# FormationFlight core: a verified model

FormationFlight lets aircraft exchange positions over ESP-NOW and LoRa, encrypted and
authenticated, and lets one aircraft follow another through its flight controller. This
project models the platform-free core of the firmware (`lib/ff_core`) and three pieces beside
it (the transmit side of `RadioLoRa`, the polling cursor of the web page, the firmware trailer
script), and proves what they promise. Buffers are arrays that are changed in place, stateful
parts are classes with the source's own fields, loops stay loops; what they compute is stated
by functions on byte strings, maps and records, and the laws are proved about those.

What each file holds, and its main results:

- `SBox`, `Galois`, `Aes`: FIPS 197 from the substitution table up. The xor trick of
  MixColumns is the matrix product, encryption in place is the cipher of section 5.1, and the
  cipher is a permutation with the inverse cipher of section 5.3.
- `Ccm`, `CcmBinding`: RFC 3610. The streaming MAC is the block MAC, decryption inverts
  encryption and accepts nothing else, no two blocks of a message coincide; the MAC input
  binds nonce, header and data, and no block of keystream comes twice.
- `Sha256`, `HashInput`, `Sha256Constants`: any split into `update` calls gives the digest of
  FIPS 180-4; its constants are the roots of primes, and no two messages are padded alike.
- `CipherExamples`, `WireExamples`: published examples of the ciphers and the messages, worked
  out in the model, and the layout of the packets.
- `Bytes`, `Words`, `WireFormat`, `Protocol`: codecs that are exact in both directions.
- `Replay`, `Crypto`, `EndToEnd`: frames, the sliding replay window with the exact condition
  under which it is safe, and the round trip of a packet from one node to another.
- `SpscRing`: the lock-free ring under every interleaving of its loads and stores.
- `Scheduler`: the timer wheel in time modulo 2^32, with callbacks that start, cancel and
  re-arm any timer.
- `PeerTable`, `FrameLog`, `Radar`, `Node`, `Tallies`: the peer table as a bounded map, the
  frame log and its polling cursor, the radar cursor's fairness, the sequence of counters and
  nonces, and the accounting of all frames.
- `Delivery`: what one node tells the air is what another has in its table.
- `Follow`, `Guidance`, `SlotPath`, `PilotDisplay`: the lock protocol and the slot-safety layers
  over whole runs of the controller, where its waypoints lie beside the leader and how fast it
  flies there, the way between two slots, and what reaches the pilot's display.
- `Framing`, `Msp`, `MspParser`, `Ubx`, `UbxParser`, `FcModes`: incremental parsers on any
  stream at all, and exactly when they take a frame that was sent.
- `RadioTx`: the half-duplex transmit protocol with its one-frame slot and watchdog.
- `Config`, `ConfigDocument`: settings as a JSON document, merge laws and validity.
- `Trailer`, `FirmwareImage`: the overwrite law of the firmware trailer, and where an image ends.

Where the code differs from its own comments, the code is followed:

- `lib/ff_core/crypto.h:35-38` says that a frame is accepted once and only once. When the newest
  counter jumps by exactly 32, line 124 of `crypto.cpp` clears the marks while line 134 still
  admits a counter 32 behind, so the previous newest counter is accepted once more.
  `Replay.AcceptedTwice` gives the run, `Replay.ReplaySafeIffNoJump` the exact condition.
- `lib/ff_core/scheduler.cpp:71-74` says that one poll never fires a timer a callback just
  created. What it remembers as due are slots: a callback that cancels a due timer of a later
  slot and starts another one there makes it fire at once (`Scheduler.CreatedFiresTooEarly`).
  As long as no callback cancels a timer of a later slot the comment holds
  (`Scheduler.FiresDueList`).
- `lib/ff_core/follow.cpp:50-52` says that a variable enabled later is sent at once. That is so
  if it was never sent before; one that was sent within the heartbeat is not
  (`PilotDisplay.MovedStatusIsNotSent`).

What the code does not prevent, with the exact condition or one a caller can check:

- Noise that looks like the beginning of a frame swallows a good frame behind it
  (`MspParser.SwallowedByNoise`, `UbxParser.SwallowedByNoise`). A frame is taken exactly if the
  parser is looking for a header when it begins (`Framing.FoundIffSeeking`).
- The debug output may share a variable with the lock status and overwrite it
  (`PilotDisplay.DebugOverwritesStatus`). `PilotDisplay.TellsTruthIff` is exact for one cycle,
  `PilotDisplay.PilotSeesTruth` has a condition for whole runs.
- The safety layers of `lib/ff_core/follow.cpp` look at slots, not at the way between them: with
  two sticks, two slots may be accepted one after the other although the straight way leads
  through the leader (`SlotPath.AcceptedThroughLeader`). `SlotPath.ClearWayIff` says exactly when
  it does not; with one stick it never does (`SlotPath.EveryCycleIsClear`).
- A timer of a later slot that a callback re-arms while it is due fires at once and is over
  (`Scheduler.RearmingIsLost`).
- Posting two documents is not always posting both in one: a placeholder or an unknown heading
  mode leaves what the first one set (`Config.MergesApart`, `Config.MergesCompose`).
- `fixed` cuts a text that is too long without saying so. `buildTrailer` checks the layout
  only; the product name, the device name and the options may be cut (`Trailer.LongNameIsCut`),
  and `Trailer.FieldsReadBackIff` says exactly which fields survive.

Conventions: a pointer that is only read is a sequence; a `ctx` pointer of a callback is
dropped; or-ing a byte into bits that are free is written as an addition; a byte is wrapped in
a datatype so that its bits stay out of the proofs that do not need them.

The main results, to which the other rows of the table lead up:

- `Aes.CipherIsPermutation` with `Aes.Aes128.EncryptBlock`; `Ccm.OpenInvertsSeal` with
  `Ccm.CcmDecrypt`; `CcmBinding.MacInputTellsApart`, `CcmBinding.NoStreamBlockTwice`;
  `Sha256.Hasher.Finish`, `Sha256Constants.RoundConstants`
- `Protocol.PositionCodecIsExact`, `Protocol.AnnounceCodecIsExact`, `Crypto.FrameCodecIsExact`,
  `EndToEnd.DeliverPosition`
- `Replay.ReplaySafeIffNoJump` with `Crypto.TakenOnce`; `Node.NoCounterTwice`,
  `Node.NoKeystreamTwice`
- `SpscRing.PoppedIsPrefixOfAccepted`, `SpscRing.SizeInTwoReads`
- `Scheduler.Scheduler.Poll` with `Scheduler.SlotLaw` and `Scheduler.CancelledDoesNotFire`;
  `Scheduler.FiresEveryPeriod`
- `PeerTable.PeerTable.UpdatePosition`, `FrameLog.EveryFrameAccounted`, `Radar.Fairness`,
  `Node.Node.OnReceive`, `Node.Node.SendAnnounce`; `Delivery.BeaconArrives`,
  `Delivery.GoodWasSealed`
- `Follow.FollowController.Service` with `Follow.EveryWaypointSafe`, `Follow.NoFailover`,
  `Follow.NewTargetTakesOver`, `Follow.NoSideSwitch`; `Guidance.AboveLeader`,
  `Guidance.BesideLeader`, `Guidance.SlotIsTakenIff`; `SlotPath.ClearWayIff`,
  `SlotPath.EveryCycleIsClear`; `PilotDisplay.PilotSeesTruth`
- `Framing.FoundIffSeeking`, `Framing.CutsArePieces`; `MspParser.HearsEveryReply`,
  `MspParser.HearsAfterDamage`, `UbxParser.HearsEveryMessage`
- `RadioTx.NothingLost` with `RadioTx.RadioLoRa.ServiceRx`; `RadioTx.StartedAsAsked`
- `Config.RoundTripIffNoPlaceholder`, `Config.MergesCompose`, `Config.AlwaysValid`
- `Trailer.ConfiguringOverwrites`, `Trailer.FieldsReadBackIff`, `FirmwareImage.EndOfImage`

## Model

| member | source | states |
|---|---|---|
| SBox.SboxIsFips | lib/ff_core/aes.cpp:7-24 | every entry of the substitution table is, up to the affine map of section 5.1.1 of FIPS 197, the multiplicative inverse of its index in GF(2^8) |
| SBox.InvSboxLeft | lib/ff_core/aes.cpp:7-24 | the table is undone by the inverse table |
| SBox.InvSboxRight | lib/ff_core/aes.cpp:7-24 | the inverse table is undone by the table |
| Galois.XtimeIsGfMul | lib/ff_core/aes.cpp:30-32 | the shift-and-xor step is multiplication by x in GF(2^8), for every byte |
| Galois.TrickIsFipsMix | lib/ff_core/aes.cpp:95-105 | the xor trick on a column equals the matrix product of section 5.1.3 of FIPS 197, for every column |
| Galois.MixInverse | lib/ff_core/aes.cpp:95-105 | the matrix of section 5.3.3 undoes that column step, in both orders |
| Aes.CipherIsPermutation | lib/ff_core/aes.cpp:58-109 | for every key schedule the cipher is a permutation of blocks whose inverse, on both sides, is the inverse cipher of section 5.3 of FIPS 197 |
| Aes.RconIsFips | lib/ff_core/aes.cpp:26-27 | the round constants are successive powers of x in GF(2^8) |
| Aes.ShiftRowsInverse | lib/ff_core/aes.cpp:74-92 | shifting the rows and shifting them back give the block again, in both orders |
| Aes.MixColumnsInverse | lib/ff_core/aes.cpp:94-105 | mixing the columns of a whole block and unmixing them give the block again, in both orders |
| Aes.Aes128.SetKey | lib/ff_core/aes.cpp:36-56 | the round keys written in place are the key expansion of section 5.2 of FIPS 197 |
| Aes.Aes128.ShiftRowsInPlace | lib/ff_core/aes.cpp:74-92 | the swaps through one temporary are the row shifts of section 5.1.2, on every byte of the block |
| Aes.Aes128.MixColumnsInPlace | lib/ff_core/aes.cpp:94-105 | the four column steps in place are MixColumns of section 5.1.3 |
| Aes.Aes128.EncryptBlock | lib/ff_core/aes.cpp:58-109 | encryption in place leaves the cipher of section 5.1 of FIPS 197 of the old block under this key schedule |
| Aes.Aes128.AddRoundKey | lib/ff_core/aes.cpp:60-64 | the block is exclusive-ored with that round key |
| Aes.Aes128.SubBytesInPlace | lib/ff_core/aes.cpp:69-72 | every byte is substituted |
| Aes.InvRoundsOfRounds | lib/ff_core/aes.cpp:68-108 | the inverse rounds undo any number of rounds |
| Ccm.OpenInvertsSeal | lib/ff_core/ccm.cpp:145-179 | opening accepts exactly the sealings: it yields data if and only if ciphertext and tag are those of that data under the same nonce and header |
| Ccm.BlocksAreDistinct | lib/ff_core/ccm.cpp:64-75 | the counter blocks of one message differ from each other and from its first MAC block, for every message the length field admits |
| Ccm.CountersInRange | lib/ff_core/ccm.cpp:115-130 | the block counter of an admitted message never wraps and fits the length field |
| Ccm.SumOfBlocks | lib/ff_core/ccm.cpp:95-107 | the MAC input is a whole number of blocks |
| Ccm.AbsorbedIsCbcMac | lib/ff_core/ccm.cpp:34-62 | what the streaming MAC holds after any bytes, flushed, is the CBC-MAC of section 2.2 of RFC 3610 of their zero-padded blocks |
| Ccm.PartialStep | lib/ff_core/ccm.cpp:38-46 | one byte fed keeps the state that of the bytes so far with the open block padded |
| Ccm.PartialFlush | lib/ff_core/ccm.cpp:49-54 | flushing is padding the open block with zeros |
| Ccm.MacState.Feed | lib/ff_core/ccm.cpp:38-46 | feeding appends to what was absorbed, block boundaries anywhere |
| Ccm.MacState.FlushBlock | lib/ff_core/ccm.cpp:49-54 | flushing pads what was absorbed to whole blocks, and only if one is open |
| Ccm.BuildCtrBlock | lib/ff_core/ccm.cpp:65-75 | for nonces of 11 to 13 bytes the counter block A_i of section 2.3 of RFC 3610 |
| Ccm.BuildFirstBlock | lib/ff_core/ccm.cpp:84-93 | for nonces of 11 to 13 bytes the block B_0 of section 2.2 of RFC 3610: flags, nonce, length |
| Ccm.ComputeMac | lib/ff_core/ccm.cpp:79-112 | for nonces of 11 to 13 bytes the CBC-MAC over B_0, the length-prefixed header and the data, both zero-padded |
| Ccm.CtrCrypt | lib/ff_core/ccm.cpp:115-130 | nothing outside the range changes; for nonces of 11 to 13 bytes the range is exclusive-ored with the keystream of section 2.3 of RFC 3610 |
| Ccm.MaskTag | lib/ff_core/ccm.cpp:133-141 | for nonces of 11 to 13 bytes the tag is the MAC under the keystream block of counter 0, cut to its length |
| Ccm.CcmEncrypt | lib/ff_core/ccm.cpp:145-159 | success exactly for valid parameters, else nothing changes; with nonces of 11 to 13 bytes ciphertext and tag are the sealing of the old data; nothing else changes |
| Ccm.CcmDecrypt | lib/ff_core/ccm.cpp:161-179 | failure for invalid parameters, with nothing changed; with nonces of 11 to 13 bytes it accepts exactly when opening does, and then leaves the opened data in place |
| Ccm.DiffIsZero | lib/ff_core/ccm.cpp:172-178 | the accumulated difference of two tags is zero exactly when they are equal |
| Ccm.SameTag | lib/ff_core/ccm.cpp:170-178 | the comparison over every byte says whether the tags are equal |
| Ccm.FeedAad | lib/ff_core/ccm.cpp:98-104 | associated data enters the MAC with its length in front, filled up to whole blocks, so that no two are alike (CcmBinding.AadBlocksTellApart) |
| CcmBinding.MacInputTellsApart | lib/ff_core/ccm.cpp:79-112 | nonce, header, data and tag length (up to its last bit) can be told from what the MAC is taken over: equal MAC inputs mean equal messages |
| CcmBinding.AadBlocksTellApart | lib/ff_core/ccm.cpp:98-104 | two headers are laid into equal blocks exactly if they are equal, however they are padded |
| CcmBinding.AadBlocksPrefixFree | lib/ff_core/ccm.cpp:98-104 | the blocks of one header are never the beginning of those of another, so where the header ends is known before the data begins |
| CcmBinding.FirstBlockTellsApart | lib/ff_core/ccm.cpp:84-93 | the first block tells nonce, data length, tag length and whether there is a header |
| CcmBinding.CounterBlocksTellApart | lib/ff_core/ccm.cpp:65-75 | two counter blocks are equal exactly if nonce and counter are |
| CcmBinding.StreamBlockIs | lib/ff_core/ccm.cpp:115-130 | each whole block of the keystream is the cipher of the counter block of its number, counted from 1 |
| CcmBinding.NoStreamBlockTwice | lib/ff_core/ccm.cpp:115-130 | under one key two blocks of keystream of any two messages are equal only if nonce and place are, and none is the block that masks a tag |
| CcmBinding.TagUnmasked | lib/ff_core/ccm.cpp:133-141 | the tag under its mask is the MAC |
| CcmBinding.MacNoticesOneBlock | lib/ff_core/ccm.cpp:34-62 | under any key two inputs that differ in one block only, with anything before and after it, have different MACs |
| Sha256.WordRoundTrip | lib/ff_core/sha256.cpp:37-42 | four bytes make a big-endian word that splits into them again |
| Sha256.AbsorbedMore | lib/ff_core/sha256.cpp:79-94 | a piece that does not overrun the open block moves the hash on by the compression of section 6.2.2 of FIPS 180-4 exactly when it fills the block |
| Sha256.EnoughZeros | lib/ff_core/sha256.cpp:100-103 | the padding loop appends the zero bytes of section 5.1.1, also across a block boundary |
| Sha256.AbsorbedWhole | lib/ff_core/sha256.cpp:96-121 | once the length is in, the hash is the fold of the compression over the padded message |
| Sha256.BitsAdd | lib/ff_core/sha256.cpp:80 | the bit count accumulates over calls modulo 2^64 |
| Sha256.Hasher.Reset | lib/ff_core/sha256.cpp:22-33 | a fresh hash of the empty message |
| Sha256.Hasher.Schedule | lib/ff_core/sha256.cpp:37-47 | the message schedule of 64 words |
| Sha256.Hasher.CompressBlock | lib/ff_core/sha256.cpp:35-77 | the eight words become their compression with the block |
| Sha256.Hasher.Update | lib/ff_core/sha256.cpp:79-94 | the message so far is extended by the bytes, for any split into calls |
| Sha256.Hasher.Take | lib/ff_core/sha256.cpp:81-93 | one pass of the loop: fill the block, compress it when full |
| Sha256.Hasher.PadOut | lib/ff_core/sha256.cpp:98-103 | the bit 1 and the zeros, byte by byte, up to 56 modulo 64 |
| Sha256.Hasher.AppendLength | lib/ff_core/sha256.cpp:104-113 | the length in bits, big-endian, closes the last block |
| Sha256.Hasher.Finish | lib/ff_core/sha256.cpp:96-121 | the digest is the SHA-256 of all bytes fed, for messages under 2^61 bytes |
| Sha256.Sha256 | lib/ff_core/sha256.cpp:123-127 | the one-shot digest is the same function of its input |
| Sha256.Hasher.Output | lib/ff_core/sha256.cpp:115-120 | the words as big-endian bytes |
| Sha256Constants.RoundConstants | lib/ff_core/sha256.cpp:7-16 | each of the 64 round constants is the first 32 bits of the fraction of the cube root of the prime of its number, by inequalities on cubes of integers |
| Sha256Constants.InitialConstants | lib/ff_core/sha256.cpp:22-33 | each of the 8 initial words is the first 32 bits of the fraction of the square root of the prime of its number |
| Sha256Constants.PrimesAre | lib/ff_core/sha256.cpp:7-16 | the 64 numbers whose roots are taken are the first 64 primes: exactly the primes up to 311, in their order |
| HashInput.PadTellsApart | lib/ff_core/sha256.cpp:96-112 | no two messages are padded to the same bytes |
| HashInput.PadParts | lib/ff_core/sha256.cpp:96-112 | the padded message is the message, one bit, zeros and the length in bits in the last eight bytes |
| HashInput.PadIsShortest | lib/ff_core/sha256.cpp:96-112 | and no longer than the next whole number of blocks that holds them |
| HashInput.HashGoesOn | lib/ff_core/sha256.cpp:79-94 | a message that goes on takes its hash on from there |
| HashInput.HashIsOnwards | lib/ff_core/sha256.cpp:79-94 | the hash goes over the blocks of a message from the front, each one moving it on |
| HashInput.Chooses | lib/ff_core/sha256.cpp:46-67 | Ch takes each bit from the second word where the first has a 1, else from the third |
| HashInput.AgreesWithTwo | lib/ff_core/sha256.cpp:46-67 | Maj takes what two of the words agree on |
| HashInput.SigmasCarry | lib/ff_core/sha256.cpp:35-67 | the four sigma functions carry the highest bit, and the lowest, to the places of section 4.1.2 of FIPS 180-4 |
| CipherExamples.AppendixB | test/test_crypto/test_crypto.cpp:65-78 | the cipher turns the block of appendix B of FIPS 197 into the one published there |
| CipherExamples.FirstBlock1 | test/test_crypto/test_crypto.cpp:167-173 | the first block of packet vector 1 of RFC 3610 is the one published there |
| CipherExamples.Header1 | test/test_crypto/test_crypto.cpp:167-173 | and so is the block of its header |
| CipherExamples.CounterBlock1 | test/test_crypto/test_crypto.cpp:167-173 | and its first counter block |
| WireFormat.LeRoundTrip | lib/ff_core/wire_format.h:22-51 | a number that fits is read back from its little-endian bytes |
| WireFormat.FromLeRoundTrip | lib/ff_core/wire_format.h:22-51 | bytes are written back from the number they make |
| WireFormat.FromLeSnoc | lib/ff_core/wire_format.h:43-49 | one more byte adds its value above those before |
| WireFormat.WordIsLe | lib/ff_core/wire_format.h:37-42 | the two bytes of a 16-bit number combine to it |
| WireFormat.LeIsWord | lib/ff_core/wire_format.h:37-42 | two combined bytes split into themselves |
| WireFormat.PutU8 | lib/ff_core/wire_format.h:22 | the byte is written at the cursor, which moves on by 1; nothing else changes |
| WireFormat.PutU16 | lib/ff_core/wire_format.h:23-26 | two bytes, low first, at the cursor; nothing else changes |
| WireFormat.PutU32 | lib/ff_core/wire_format.h:27-31 | four bytes, low first, at the cursor; nothing else changes |
| WireFormat.PutI16 | lib/ff_core/wire_format.h:32 | a signed number through its two-complement bits |
| WireFormat.PutI32 | lib/ff_core/wire_format.h:33 | 32 signed bits through their two-complement value |
| WireFormat.GetU16 | lib/ff_core/wire_format.h:37-42 | the number of the two bytes at the cursor |
| WireFormat.GetU32 | lib/ff_core/wire_format.h:43-49 | the number of the four bytes at the cursor |
| WireFormat.GetI16 | lib/ff_core/wire_format.h:50 | the signed number whose bits they are |
| WireFormat.GetI32 | lib/ff_core/wire_format.h:51 | the signed number whose 32 bits they are |
| Protocol.PositionCodecIsExact | lib/ff_core/protocol.cpp:27-98 | bytes decode to a position exactly when they begin with its encoding |
| Protocol.AnnounceCodecIsExact | lib/ff_core/protocol.cpp:42-129 | bytes decode to an announcement exactly when they begin with its encoding and its name is not too long |
| Protocol.TextIsUnique | lib/ff_core/protocol.cpp:17-23 | the bounded text of a name buffer is the only zero-free prefix that ends at a zero or the limit |
| Protocol.BoundedLen | lib/ff_core/protocol.cpp:17-23 | the length of that text |
| Protocol.WriteHeader | lib/ff_core/protocol.cpp:9-13 | version, type and uid at the cursor |
| Protocol.EncodePosition | lib/ff_core/protocol.cpp:27-40 | the 21 bytes of the packet, or nothing if there is no room; nothing beyond them changes |
| Protocol.EncodeAnnounce | lib/ff_core/protocol.cpp:42-56 | the packet with the name up to its zero, or nothing if there is no room |
| Protocol.PeekHeader | lib/ff_core/protocol.cpp:58-75 | the verdicts of length, version and type in their order, and type and uid if all pass |
| Protocol.DecodePosition | lib/ff_core/protocol.cpp:77-98 | the position the bytes encode, or the verdict that refuses them |
| Protocol.DecodeAnnounce | lib/ff_core/protocol.cpp:100-129 | the announcement the bytes encode, its name zero-terminated in the buffer, or the verdict with the packet untouched |
| Replay.OfferIsSound | lib/ff_core/crypto.cpp:113-143 | on every run: an unseen counter up to 32 behind is accepted, anything further behind refused, the newest counter stays the greatest accepted and every mark names an accepted counter |
| Replay.OfferIsExact | lib/ff_core/crypto.cpp:113-143 | with complete marks a counter is accepted exactly if it is newer than all, or unseen and at most 32 behind |
| Replay.OfferKeepsComplete | lib/ff_core/crypto.cpp:120-131 | an offer keeps the marks complete if and only if it does not move the newest counter on by exactly 32 |
| Replay.AcceptedTwice | lib/ff_core/crypto.cpp:124-137 | a concrete run on which a counter is accepted twice: 5, 37, 5 |
| Replay.JumpReopens | lib/ff_core/crypto.cpp:124-137 | every jump by exactly 32 lets the previous newest counter in again |
| Replay.ReplaySafeIffNoJump | lib/ff_core/crypto.cpp:113-143 | a run never accepts a counter again if and only if its newest counter never jumps by exactly 32 |
| Replay.AcceptedAtMostOnce | lib/ff_core/crypto.cpp:113-143 | on a run without such a jump no counter is accepted twice |
| Replay.RunIsSound | lib/ff_core/crypto.cpp:113-143 | the window of a whole run is sound for the counters accepted in it |
| Replay.SlideTest | lib/ff_core/crypto.cpp:127 | after sliding, mark i is the old mark i minus the advance, with the old newest counter below them |
| Replay.OrTest | lib/ff_core/crypto.cpp:137-141 | setting a mark changes that mark only |
| Replay.RunIsComplete | lib/ff_core/crypto.cpp:113-143 | without a jump by 32 the marks of a whole run are complete |
| Replay.UpTest | lib/ff_core/crypto.cpp:127 | a shift by any amount moves every mark by that amount |
| Crypto.FrameCodecIsExact | lib/ff_core/crypto.cpp:48-74 | a frame opens to a packet exactly when it is that packet sealed under the uid and counter its own header names |
| Crypto.FrameRoundTrip | lib/ff_core/crypto.cpp:145-185 | a packet whose header carries the sender uid comes back from its frame, uid and counter with it |
| Crypto.FrameParts | lib/ff_core/crypto.cpp:48-74 | where header, counter, ciphertext and tag lie in a frame |
| Crypto.TakenKeepsConsistent | lib/ff_core/crypto.cpp:167-177 | taking a counter keeps the uids of used slots distinct and every slot the window of its epoch |
| Crypto.TakenOnce | lib/ff_core/crypto.cpp:113-143 | a counter of the current epoch that was accepted is not accepted again unless the epoch has had a jump by 32 |
| Crypto.CcmCrypto.Begin | lib/ff_core/crypto.cpp:37-44 | key, uid, counter and an empty replay table |
| Crypto.CcmCrypto.BuildNonce | lib/ff_core/crypto.cpp:12-19 | the 13 bytes of uid, counter and zeros, each in its place (Crypto.NonceParts) |
| Crypto.CcmCrypto.OpenGap | lib/ff_core/crypto.cpp:57-61 | moving the payload up by four, backwards, loses nothing |
| Crypto.CcmCrypto.CloseGap | lib/ff_core/crypto.cpp:179-182 | moving it down again, forwards, loses nothing |
| Crypto.CcmCrypto.EncryptAs | lib/ff_core/crypto.cpp:48-74 | the frame of the packet in place, ten bytes longer; nothing beyond it changes; 0 exactly for a packet too short, too long or without room |
| Crypto.CcmCrypto.Encrypt | lib/ff_core/crypto.cpp:76-79 | the frame under the node's own uid and its next counter |
| Crypto.CcmCrypto.Victim | lib/ff_core/crypto.cpp:92-102 | the slot given up is free, or else (clock differences under 2^31) the one silent longest |
| Crypto.CcmCrypto.SlotFor | lib/ff_core/crypto.cpp:81-111 | the slot of the sender; a new one only if it has none, and only that slot changes |
| Crypto.CcmCrypto.AcceptCounter | lib/ff_core/crypto.cpp:113-143 | the window rule applied to that slot alone |
| Crypto.CcmCrypto.Authenticate | lib/ff_core/crypto.cpp:151-165 | true exactly if the frame opens, and then the payload is the opened one |
| Crypto.CcmCrypto.TakeCounter | lib/ff_core/crypto.cpp:167-177 | slot, reset after silence, window and timestamp as one step that keeps the table consistent |
| Crypto.CcmCrypto.Decrypt | lib/ff_core/crypto.cpp:145-185 | a frame that does not open changes no replay state; one that does is taken or counted as a replay, and when taken the buffer holds its packet |
| Crypto.NonceParts | lib/ff_core/crypto.cpp:12-19 | uid, counter and zeros each stand in the nonce in a place of their own and can be read back from there |
| Crypto.NoncesTellApart | lib/ff_core/crypto.cpp:12-19 | two nonces are equal exactly if uid and counter are |
| Crypto.FrameIsSealed | lib/ff_core/crypto.cpp:48-74 | what a frame carries behind its header is sealed under the nonce of uid and counter, with the ten header bytes authenticated |
| EndToEnd.Deliver | lib/ff_core/crypto.cpp:48-185 | a packet sealed by one node and opened in place by another that has heard only older counters of it is delivered unchanged |
| EndToEnd.DeliverPosition | lib/ff_core/protocol.cpp:27-98 | a position packet encoded, sealed, opened and decoded has all its fields again |
| EndToEnd.DeliverAnnounce | lib/ff_core/protocol.cpp:42-129 | an announcement encoded, sealed, opened and decoded has all its fields again, its name up to the zero |
| EndToEnd.NewCounterIsTaken | lib/ff_core/crypto.cpp:167-177 | a sender without a slot, or with only older counters, is accepted |
| SpscRing.InvAlways | lib/ff_core/ring_buffer.h:28-54 | the invariant of indices, copies and slot contents holds in every state of every interleaving |
| SpscRing.PoppedIsPrefixOfAccepted | lib/ff_core/ring_buffer.h:28-54 | what has been popped is, item by item, a prefix of what push accepted; nothing is torn, lost or repeated, and never more than capacity minus one items are held |
| SpscRing.NoOverlap | lib/ff_core/ring_buffer.h:40-51 | the slot being written is never the slot being read |
| SpscRing.GivesUpExactlyWhen | lib/ff_core/ring_buffer.h:28-39 | push gives up exactly if the ring held capacity minus one items when it read the tail |
| SpscRing.IndexArithmetic | lib/ff_core/ring_buffer.h:66-75 | in any one state the remainders of next and size are the index step and the number of items held |
| SpscRing.ProducerKeepsInv | lib/ff_core/ring_buffer.h:28-43 | every atomic step of push keeps the invariant |
| SpscRing.ConsumerKeepsInv | lib/ff_core/ring_buffer.h:46-54 | every atomic step of pop keeps the invariant |
| SpscRing.SizeInTwoReads | lib/ff_core/ring_buffer.h:66-70 | size() with head read in one state and tail in a later one: always below the capacity; exact at the end for the producer, exact at the beginning and a lower bound at the end for the consumer |
| Scheduler.ReachedIsOrder | lib/ff_core/scheduler.h:65-67 | while times differ by under 2^31 the signed difference of 32-bit clocks orders them as the true times |
| Scheduler.NoDrift | lib/ff_core/scheduler.cpp:66-112 | the recursion a periodic timer follows when polled at least once a period: its k-th deadline is start plus k periods, none skipped |
| Scheduler.DueListIsExact | lib/ff_core/scheduler.cpp:69-83 | the list of due timers holds those active and due at entry, each once |
| Scheduler.Scheduler.Alloc | lib/ff_core/scheduler.cpp:5-12 | the first free slot, or none exactly if all are taken |
| Scheduler.Scheduler.After | lib/ff_core/scheduler.cpp:14-26 | a one-shot timer due after the delay, whatever the delay, in a free slot; nothing else changes |
| Scheduler.Scheduler.Every | lib/ff_core/scheduler.cpp:28-40 | a periodic timer due after one period, whatever the period, in a free slot; nothing else changes |
| Scheduler.Scheduler.Cancel | lib/ff_core/scheduler.cpp:42-47 | that timer is inactive, the others as they were |
| Scheduler.Scheduler.Rearm | lib/ff_core/scheduler.cpp:49-57 | that timer is active and due after the delay, whatever the delay, one-shot; the others as they were |
| Scheduler.Scheduler.Poll | lib/ff_core/scheduler.cpp:66-112 | the poll as specified, with callbacks that start, cancel and re-arm any timer: fires and leaves what Polls says; if no callback cancels a timer of a later slot exactly the timers due at entry fire; a timer no other callback cancels or re-arms is left as Polled says: a fired one-shot is over, a periodic one moved on, a slot that was or became free holds at most a timer that a callback of this poll created; afterwards every active timer is due later than now, and the result is the least remaining delay |
| Scheduler.Scheduler.NextDelay | lib/ff_core/scheduler.cpp:100-111 | the exact minimum of the remaining delays |
| Scheduler.Scheduler.Fire | lib/ff_core/scheduler.cpp:78-98 | the firing loop over the snapshot, with callbacks that start, cancel and re-arm any timer |
| Scheduler.Scheduler.Advance | lib/ff_core/scheduler.cpp:86-96 | a fired periodic timer is next due in (now, now + period]: one period on, or from now if that too has passed |
| Scheduler.Scheduler.Call | lib/ff_core/scheduler.cpp:97 | the operations of a callback one after the other |
| Scheduler.FiresEveryPeriod | lib/ff_core/scheduler.cpp:28-112 | for a timer as Every leaves it and any sequence of polls at most one period apart, whatever callbacks start, cancel and re-arm other timers: the lists of fired timers hold it count times, and it is next due count + 1 periods after the start, within one period of now |
| Scheduler.PeriodicStays | lib/ff_core/scheduler.cpp:78-98 | a poll fires a periodic timer that nobody cancels or re-arms exactly if it is due, and leaves it on its deadline or, if it fired, on the next one |
| Scheduler.CalledAll | lib/ff_core/scheduler.cpp:14-57 | what the operations of a callback leave of a timer: the last cancellation or re-arming counts, a running timer that is not touched stays, a free slot may be taken |
| Scheduler.FiresDueOnly | lib/ff_core/scheduler.cpp:69-98 | whatever the callbacks do, what fires was due when the poll began, each slot once, in order |
| Scheduler.SlotLaw | lib/ff_core/scheduler.cpp:66-98 | a timer that only its own callback cancels or re-arms fires exactly if it was due, with its task, and is left as Polled says, whatever happens to other timers |
| Scheduler.FiresDueList | lib/ff_core/scheduler.cpp:69-98 | if no callback cancels a timer of a later slot, exactly the timers due at entry fire, each with its own task, and none that a callback started |
| Scheduler.CancelledDoesNotFire | lib/ff_core/scheduler.cpp:71-77 | where callbacks only cancel, a due timer fires if and only if no callback that ran before it in this poll cancelled it |
| Scheduler.CreatedFiresTooEarly | lib/ff_core/scheduler.cpp:71-83 | a poll that fires a timer a callback just created: it took the slot of a due timer the callback had cancelled |
| Scheduler.RearmingIsLost | lib/ff_core/scheduler.cpp:49-57 | a due timer that an earlier callback of the poll re-arms fires at once and is over |
| Scheduler.PollsKeepOrder | lib/ff_core/scheduler.cpp:78-98 | after a poll every timer is in range of the signed comparison and every active one due later than now |
| PeerTable.UpdateKnown | lib/ff_core/peer_table.cpp:48-94 | replacing a known entry changes the map at its uid only |
| PeerTable.InsertKnown | lib/ff_core/peer_table.cpp:25-37 | filling a slot adds the new uid and drops only whom the slot held |
| PeerTable.KnownIsBounded | lib/ff_core/peer_table.cpp:25-37 | the map has no more entries than slots |
| PeerTable.ExpireKeepsCount | lib/ff_core/peer_table.cpp:96-112 | expiring removes exactly the peers the count already left out and leaves the count |
| PeerTable.SlotsOfFewer | lib/ff_core/peer_table.cpp:104-128 | peers heard on one radio are no more than all active ones |
| PeerTable.PeerTable.Find | lib/ff_core/peer_table.cpp:7-23 | the slot of a known uid, else none |
| PeerTable.PeerTable.AllocSlot | lib/ff_core/peer_table.cpp:25-37 | a free slot, or else one whose last update is the oldest |
| PeerTable.PeerTable.UpdatePosition | lib/ff_core/peer_table.cpp:48-72 | the map with that entry updated; a known uid evicts nobody, a new one in a full table exactly one least recently updated |
| PeerTable.PeerTable.UpdateAnnounce | lib/ff_core/peer_table.cpp:74-94 | the map with the announced entry updated, with the same eviction rule |
| PeerTable.PeerTable.Expire | lib/ff_core/peer_table.cpp:96-102 | every entry stays but for its valid flag, which is whether it is active |
| PeerTable.PeerTable.CountActive | lib/ff_core/peer_table.cpp:104-112 | the number of active entries |
| PeerTable.PeerTable.CountActiveOn | lib/ff_core/peer_table.cpp:114-128 | the number heard on that radio in time, never more than all active ones in unwrapped time |
| PeerTable.PeerTable.At | lib/ff_core/peer_table.cpp:130-135 | the entry of a valid slot |
| PeerTable.PeerTable.Claim | lib/ff_core/peer_table.cpp:50-57 | the slot of a known uid, or a fresh entry in an allocated one |
| PeerTable.PeerTable.CopyName | lib/ff_core/peer_table.cpp:83-88 | the announced text and a zero; bytes beyond stay |
| PeerTable.ActiveIff | lib/ff_core/peer_table.cpp:104-130 | a peer is active exactly while it was heard no longer ago than the timeout, however often the clock has wrapped, and so on each radio |
| FrameLog.FrameLog.Add | lib/ff_core/frame_log.h:45-52 | the frame is the newest of those kept |
| FrameLog.FrameLog.At | lib/ff_core/frame_log.h:60-64 | index i is the i-th most recent frame |
| FrameLog.FrameLog.Clear | lib/ff_core/frame_log.h:66-69 | no frame is kept, the total stays |
| FrameLog.Serve | src/hal/WebServer.cpp:604-616 | the frames from the cursor on, newest first, each the one with its sequence number |
| FrameLog.EveryFrameAccounted | html/main.js:310-329 | over any frames and polls every frame logged between the first and the last poll is shown once under its number or counted once as missed, while the total stays below 2^31 |
| FrameLog.NothingMissed | html/main.js:316-329 | nothing is missed while no more than 32 frames come between polls |
| Radar.TickComesCloser | lib/ff_core/node.cpp:97-118 | a tick sends a given valid slot or brings the cursor closer to it |
| Radar.Fairness | lib/ff_core/node.cpp:97-118 | a slot valid at 16 consecutive ticks is sent in one of them, whatever else changes |
| Radar.SilentOnlyWhenEmpty | lib/ff_core/node.cpp:115-117 | a tick sends nothing exactly if the table is empty |
| Node.Node.OnReceive | lib/ff_core/node.cpp:226-316 | the checks in their order, one log entry, one node counter and one radio counter for the outcome; the peer table changes only for a good packet; the log total stays receive calls plus transmissions |
| Node.Node.Account | lib/ff_core/node.cpp:213-316 | counter and log entry of one outcome |
| Node.Node.CountedOnce | lib/ff_core/node.cpp:226-316 | receive calls are good, rejected and own frames, modulo 2^32 |
| Node.Node.TakeIn | lib/ff_core/node.cpp:260-316 | what becomes of a packet: refused, our own, a position or an announcement folded into the table |
| Node.Node.Unwrap | lib/ff_core/node.cpp:243-258 | the cipher half: bad tag, replay or the packet |
| Node.Node.SendBeacon | lib/ff_core/node.cpp:120-159 | one frame of the own position (Delivery.BeaconArrives) under the next counter, one log entry, the counters; nothing if the radio does not transmit |
| Node.Node.SendAnnounce | lib/ff_core/node.cpp:161-211 | one copy for each transmitting radio, each sealed under its own counter, logged, and counted on its radio |
| Node.CopiesDiffer | lib/ff_core/node.cpp:179-185 | no two copies carry the same counter |
| Node.OneCopyEach | lib/ff_core/node.cpp:186-206 | a transmitting radio gets one copy, any other none |
| Node.Node.OnMspRadarTick | lib/ff_core/node.cpp:97-118 | the next valid slot from the cursor on is sent under its position counted from 1 |
| Node.Node.Handle | lib/ff_core/node.cpp:238-316 | the checks of a received frame in their order, its length first |
| Node.Node.TakePosition | lib/ff_core/node.cpp:278-292 | a position is folded into the table or refused |
| Node.Node.TakeAnnounce | lib/ff_core/node.cpp:293-308 | an announcement is folded into the table or refused |
| Node.Node.SendPacket | lib/ff_core/node.cpp:147-158 | a packet is sealed and handed to one radio, counted and logged |
| Node.Node.SendCopies | lib/ff_core/node.cpp:184-206 | the loop over the radios: frames, log, counters of the cipher and of the radios |
| Node.NoCounterTwice | lib/ff_core/node.cpp:147-206 | over the whole life of a node any two frames sent fewer than 2^32 apart carry different counters |
| Node.SequenceGoesOn | lib/ff_core/node.cpp:147-206 | one more sealed frame continues the sequence of counters |
| Node.NoKeystreamTwice | lib/ff_core/node.cpp:147-153 | no block of keystream masks data of two frames of a node fewer than 2^32 apart, nor is it the mask of a tag |
| Tallies.NodeTallies | lib/ff_core/node.cpp:232-315 | over any receive calls the three counters of a node rise by the frames that were good, its own, and refused, modulo 2^32, and no other moves |
| Tallies.RadioTallies | lib/ff_core/node.cpp:228-315 | over any receive calls those of a radio rise by the good frames and its own heard on it |
| Tallies.RefusalTallies | lib/ff_core/node.cpp:228-315 | and by those refused, each way of refusing apart, too long ones with those that cannot be decoded |
| Tallies.SentTallies | lib/ff_core/node.cpp:153-204 | the transmit counter of each radio rises by the frames handed to it |
| Tallies.EntriesTell | lib/ff_core/node.cpp:213-224 | each frame handed to a radio has its own log entry, with its time, sender, length, radio and kind |
| Tallies.TouchTells | lib/ff_core/node.cpp:226-230 | a receive call leaves its time and signal strength on its radio only |
| Delivery.BeaconArrives | lib/ff_core/node.cpp:120-160 | a beacon taken in as good, with or without a cipher, puts into the table under the sender's uid its latitude, longitude, altitude, speed and course, whether it has a fix and is armed, when and on which radio it was heard, and nothing else of its entry but one more packet counted |
| Delivery.AnnounceArrives | lib/ff_core/node.cpp:161-211 | an announcement taken in as good puts the text and the capabilities of its sender into the table, and keeps where it was last seen |
| Delivery.BeaconIsTaken | lib/ff_core/node.cpp:226-293 | a beacon sealed under the receiver's key is a repetition, the receiver's own, or good, whatever the table holds |
| Delivery.GoodWasSealed | lib/ff_core/node.cpp:243-257 | a node with a cipher takes nothing in, and changes nothing of its table, for a frame that was not sealed under its key by the uid and under the counter that the frame names |
| Delivery.FlagsTell | lib/ff_core/node.cpp:134-140 | the flags of a beacon say whether its sender has a fix and whether it is armed |
| Delivery.BeaconMayBeFollowed | lib/ff_core/follow.cpp:221-231 | a peer whose beacon arrived may be followed later exactly if the beacon had a fix and is not older than the timeout |
| Follow.RootBelowIsRoot | lib/ff_core/follow.cpp:138-161 | comparing squares is comparing the roots the code takes |
| Follow.AxisOffset | lib/ff_core/follow.cpp:414-428 | an axis scaled by a stick is never further out than configured |
| Follow.OnTheBoundary | lib/ff_core/follow.cpp:163-177 | a sane slot on the middle of an axis keeps the minimum separation in the other two |
| Follow.Heading | lib/ff_core/follow.cpp:351-384 | 0 in OFF mode, else 1 to 359 |
| Follow.HeadingIsRaw | lib/ff_core/follow.cpp:351-384 | the heading is the rounded one modulo 360, due north becoming 1 |
| Follow.Clamp | lib/ff_core/follow.cpp:13-17 | clamping with crossed bounds too |
| Follow.CycleKeepsGood | lib/ff_core/follow.cpp:473-618 | a cycle keeps the slot sane and within its configuration, and a pinned lock on the pinned peer |
| Follow.NextKeepsGood | lib/ff_core/follow.cpp:473-618 | every call of service or applyConfig keeps the slot sane and the lock on the pinned peer |
| Follow.AlwaysGood | lib/ff_core/follow.cpp:473-618 | every state of every run is good: slot sane and within its configuration, a pinned lock on the pinned peer |
| Follow.SlotAlwaysSane | lib/ff_core/follow.cpp:578-581 | from the start of any run the geometry check before a waypoint cannot fail |
| Follow.NoFailover | lib/ff_core/follow.cpp:255-330 | while the gate is active and no configuration is accepted that changes the target, a held lock never changes its uid over any run |
| Follow.LeaderIsLocked | lib/ff_core/follow.cpp:255-324 | whoever is followed is the peer of the lock, fresh and with a fix, and the pinned one if one is pinned |
| Follow.LocksOnNearest | lib/ff_core/follow.cpp:267-292 | with no target and an own fix a new lock is on a nearest followable peer |
| Follow.EveryWaypointSafe | lib/ff_core/follow.cpp:473-618 | every waypoint is sent in LOCKED for a fresh peer with a fix, not below the floor, within the distance bound, with a heading of 0 exactly in OFF mode |
| Follow.StepAside | lib/ff_core/follow.cpp:163-199 | one step to or across the middle of an axis leaves the slot clear of the leader on the others |
| Follow.NoSideSwitch | lib/ff_core/follow.cpp:163-199 | under one configuration, between a cycle on one side of the leader and a later one on the other the slot was clear of it by the minimum separation |
| Follow.Crossing | lib/ff_core/follow.cpp:163-199 | an accepted candidate across the leader is clear of it |
| Follow.OneFlightACycle | lib/ff_core/follow.cpp:473-618 | of all commands of a cycle exactly its waypoint, if any, moves the aircraft |
| Follow.FlightsAfter | lib/ff_core/follow.cpp:604 | waypoints keep the order in which they were sent |
| Follow.FollowController.constructor | lib/ff_core/follow.cpp:235-241 | the initial state |
| Follow.FollowController.SendGvarIfDue | lib/ff_core/follow.cpp:53-65 | a variable is sent exactly if it is enabled and another value was last sent for it or its heartbeat is due, and that is remembered |
| Follow.FollowController.UpdateStatusGvars | lib/ff_core/follow.cpp:620-625 | status and condition are sent where due, and what was sent for them is remembered |
| Follow.FollowController.UpdateAutothrottleGvars | lib/ff_core/follow.cpp:627-634 | the engagement is sent where due and remembered; the speed is sent only when engaged |
| Follow.FollowController.UpdateDebugGvars | lib/ff_core/follow.cpp:639-651 | four variables in debug mode, none otherwise |
| Follow.FollowController.Bail | lib/ff_core/follow.cpp:489-492 | the commands of a cycle that sends no waypoint |
| Follow.FollowController.Pick | lib/ff_core/follow.cpp:260-295 | the entry a new lock is taken on, or none exactly if no entry qualifies |
| Follow.FollowController.PickNearest | lib/ff_core/follow.cpp:274-291 | the scan finds a nearest followable peer |
| Follow.FollowController.FindLocked | lib/ff_core/follow.cpp:304-323 | the peer of the lock if it can be followed, and otherwise no followable entry has its uid |
| Follow.FollowController.ResolveLock | lib/ff_core/follow.cpp:255-324 | the lock protocol of one cycle |
| Follow.FollowController.ApplyConfig | lib/ff_core/follow.cpp:801-815 | a configuration is taken exactly if it is valid; then the slot is re-anchored and a changed target drops the lock, otherwise nothing changes |
| Follow.FollowController.ResolveOffset | lib/ff_core/follow.cpp:454-465 | the candidate if it is acceptable, else the slot stays and is flagged frozen |
| Follow.FollowController.ResolveCourse | lib/ff_core/follow.cpp:332-349 | the course is held below the speed threshold |
| Follow.FollowController.ResolveAltitude | lib/ff_core/follow.cpp:543-566 | the slot's height over the leader (Guidance.AboveLeader), never below the floor; a clamp is blamed on the stick exactly if the configured slot would not have clamped |
| Follow.FollowController.PreArmCheck | lib/ff_core/follow.cpp:494-507 | set exactly if, unarmed, the sticks disagree with the configured slot |
| Follow.FollowController.Steer | lib/ff_core/follow.cpp:524-618 | the part of a cycle with a leader and a fix |
| Follow.FollowController.Service | lib/ff_core/follow.cpp:473-618 | a call that is not due changes nothing; a due one is one cycle of a run: state, commands, and what is remembered of the variables as specified |
| Follow.FollowController.PickPinned | lib/ff_core/follow.cpp:262-266 | the pinned peer exactly if it is followable |
| Follow.FollowController.PickFirst | lib/ff_core/follow.cpp:276-284 | without an own fix the first followable entry |
| Follow.FollowController.StandDown | lib/ff_core/follow.cpp:509-517 | a cycle whose gate is not active drops the lock |
| Follow.FollowController.Pursue | lib/ff_core/follow.cpp:519-618 | a cycle whose gate is active |
| Follow.FollowController.Emit | lib/ff_core/follow.cpp:585-609 | variables, waypoint, heading and status in their order |
| Follow.NewTargetTakesOver | lib/ff_core/follow.cpp:326-330 | after a configuration with another target is accepted, whoever is followed next is chosen afresh by it, over any run |
| Follow.StaysUnlocked | lib/ff_core/follow.cpp:260-295 | while nobody is followed an open lock stays open under the same configuration |
| Guidance.AboveLeader | lib/ff_core/follow.cpp:539-555 | every waypoint lies as far above the leader as the slot says, both measured from home, or at the floor if that is lower |
| Guidance.HeightOverLeader | lib/ff_core/follow.cpp:539-555 | above the floor the height of a waypoint over the leader is the vertical slot to half a centimetre |
| Guidance.BesideLeader | lib/ff_core/follow.cpp:114-137 | seen from the leader every waypoint lies the length of the slot ahead along the course and its width to the right of it, as exactly as the projection places points |
| Guidance.CourseIs | lib/ff_core/follow.cpp:332-349 | the course is the leader's exactly while it moves fast enough, else the one kept |
| Guidance.SlotKeepsClear | lib/ff_core/follow.cpp:139-158 | the slot of a waypoint keeps the minimum separation, and the vertical one if it is less than half a metre beside the leader |
| Guidance.FollowableIff | lib/ff_core/follow.cpp:221-231 | a peer may be followed exactly if it is known, has a fix and sent a position no longer ago than the timeout, however often the clock has wrapped |
| Guidance.SlotIsTakenIff | lib/ff_core/follow.cpp:454-465 | a cycle takes the slot of the sticks exactly if it is sane and both it and the present one clear the leader on every axis where it changes sides |
| Guidance.StickMovesAxis | lib/ff_core/follow.cpp:414-428 | a stick moves its axis in proportion, from the configured distance on one side through zero to the other, and no further |
| Guidance.SticksMoveTheirAxes | lib/ff_core/follow.cpp:446-452 | each stick moves its own axis |
| Guidance.SticksAgreeIff | lib/ff_core/follow.cpp:204-219 | sticks agree with the configuration exactly if each axis that has one is within five centimetres |
| Guidance.EngagedIff | lib/ff_core/follow.cpp:434-444 | the autothrottle is engaged exactly on an airplane whose switch, if it has one, is in its range |
| Guidance.SpeedWithinLimits | lib/ff_core/follow.cpp:395-412 | the target speed is the leader's with the correction added, to half a centimetre a second, within the limits |
| Guidance.SpeedFollowsLag | lib/ff_core/follow.cpp:386-412 | for any correction that obeys the braking law the follower flies at the leader's speed in its slot, never slower the further it lags, never faster the further it is ahead |
| Guidance.NextCycleIff | lib/ff_core/follow.cpp:473-478 | after a cycle the next call that does anything is the first one a period of the rate later, on a clock that wraps |
| Guidance.StatusCodes | lib/ff_core/follow.h:172-177 | the codes of the lock shown to the pilot |
| Guidance.ConditionTells | lib/ff_core/follow.cpp:557-589 | the condition shown while steering: frozen or pulled under the floor by a stick before too far before under the floor anyway before none |
| Guidance.ConditionWaiting | lib/ff_core/follow.cpp:498-535 | the condition shown without a waypoint: sticks that disagree before take-off, else none |
| Guidance.HeadingIsSentIff | lib/ff_core/follow.cpp:606-609 | a heading is sent exactly with a waypoint that has one while the flight controller holds headings |
| Guidance.DebugTells | lib/ff_core/follow.cpp:639-651 | in debug mode four variables tell how far north and east the waypoint lies, its height and its heading |
| Guidance.ValidIff | lib/ff_core/follow.cpp:689-799 | which configurations are accepted |
| PilotDisplay.CycleSent | lib/ff_core/follow.cpp:585-651 | what a cycle sends to the index of a variable, whatever the controller remembers: the value if it is refreshed, else what the debug output writes there |
| PilotDisplay.TellsTruthIff | lib/ff_core/follow.cpp:53-65 | after a cycle the last value sent to the index of a variable is the one to tell if and only if it was refreshed, or neither the debug output nor what reached the index before says anything else |
| PilotDisplay.SpeedSent | lib/ff_core/follow.cpp:627-634 | in a cycle that leaves the autothrottle engaged the last value sent to the speed variable is the target speed |
| PilotDisplay.CycleKeepsHonest | lib/ff_core/follow.cpp:473-651 | a cycle in which no variable shares an index with the debug output, or was moved within the heartbeat, keeps what the controller remembers true of what was sent |
| PilotDisplay.RemembersTruth | lib/ff_core/follow.cpp:473-651 | over any run of such cycles what the controller remembers was the last value sent |
| PilotDisplay.PilotSeesTruth | lib/ff_core/follow.cpp:473-651 | after every cycle of such a run the last value sent to the index of each enabled variable is the status, condition or engagement of that cycle |
| PilotDisplay.DebugOverwritesStatus | lib/ff_core/follow.cpp:636-651 | a valid configuration, and a cycle after which the variable of the lock status holds 1200 while the controller takes it for up to date |
| PilotDisplay.MovedStatusIsNotSent | lib/ff_core/follow.cpp:49-65 | a status moved to another variable a quarter of a second after it was sent is not sent there |
| SlotPath.ClearWayIff | lib/ff_core/follow.cpp:163-199 | the straight way between two slots keeps the minimum separation if and only if both ends do and, when the foot of the perpendicular from the leader lies between them, so does that foot |
| SlotPath.AcceptedThroughLeader | lib/ff_core/follow.cpp:163-199 | a valid configuration and two accepted slots in succession, the straight way between which leads through the leader |
| SlotPath.OneAxisIsClear | lib/ff_core/follow.cpp:163-199 | an accepted step along one axis keeps the minimum separation all the way |
| SlotPath.EveryCycleIsClear | lib/ff_core/follow.cpp:430-465 | over any run no cycle under a configuration with at most one RC channel moves the slot along a way too close to the leader |
| Framing.InSync | lib/ff_core/msp_parser.cpp:18-131 | in sync the past of a stream does not matter |
| Framing.FrameIsCut | lib/ff_core/msp_parser.cpp:18-131 | a whole frame is cut at its last byte and leaves the scanner in sync |
| Framing.NoiseHeld | lib/ff_core/msp_parser.cpp:20-40 | after bytes without a header exactly the longest possible beginning of one is held |
| Framing.EveryFrameFound | lib/ff_core/msp_parser.cpp:18-131 | of any frames with anything between them, every one is cut where it was sent if and only if no noise, taken by itself, ends in the middle of what could be a frame; then nothing else is cut but what the noises hold, and the scanner ends in sync |
| Framing.ToldIsKept | lib/ff_core/msp_parser.cpp:18-131 | a byte-wise parser reports what is read of the frames cut |
| Framing.RestIsSuffix | lib/ff_core/msp_parser.cpp:18-131 | the bytes in hand are the last bytes of the stream |
| Framing.CutsArePieces | lib/ff_core/msp_parser.cpp:18-131 | on any stream the frames cut are complete pieces of it, in order and without overlap, and the bytes in hand come after them |
| Framing.FoundIffSeeking | lib/ff_core/msp_parser.cpp:18-131 | after any stream at all, a frame is cut where it was sent if and only if the scanner is looking for a header when it begins; then the scanner is in sync behind it |
| Framing.HissIsSeeking | lib/ff_core/msp_parser.cpp:20-40 | after noise without a header the scanner is still looking for one, and has cut nothing |
| Framing.FrameThenHiss | lib/ff_core/msp_parser.cpp:42-131 | after a whole frame, whatever its checksum, and noise without a header the scanner is looking for a header again, and has cut that frame alone |
| Framing.Swallows | lib/ff_core/msp_parser.cpp:58-131 | in the middle of a frame every byte goes into it, up to its end |
| Msp.MspCrc8DvbS2 | lib/ff_core/msp_crc.h:10-17 | eight steps of multiplication by x modulo the generator polynomial |
| Msp.ChecksumsNoticeOneByte | lib/ff_core/msp_crc.h:10-17 | both checksums of MSP notice any change of one byte |
| Msp.MspFormatIsSound | lib/ff_core/msp_parser.cpp:18-40 | reply headers hold the start byte nowhere but in front |
| Msp.DecodeOfEncode | lib/ff_core/msp_fc.cpp:43-86 | decoding a built reply gives the frame |
| Msp.EncodeOfDecode | lib/ff_core/msp_parser.cpp:18-131 | an intact string is byte for byte the encoding of what it decodes to |
| Msp.EncodeIsFramed | lib/ff_core/msp_fc.cpp:43-86 | a built reply is complete at its last byte and not before |
| Msp.BuildMspV1 | lib/ff_core/msp_fc.cpp:43-60 | the version 1 request with its xor, or 0 with the buffer untouched |
| Msp.BuildMspV2 | lib/ff_core/msp_fc.cpp:62-86 | the version 2 request with its CRC, or 0 with the buffer untouched |
| Msp.RequestIsReply | lib/ff_core/msp_fc.cpp:43-86 | a request differs from the reply in its direction byte only |
| Msp.MspFormatIsSteady | lib/ff_core/msp_parser.cpp:42-131 | behind a whole reply header no byte is given up before the reply is complete |
| MspParser.MspParser.Feed | lib/ff_core/msp_parser.cpp:18-131 | true exactly at the last byte of a reply with matching checksum and at most 128 bytes of payload, exposing it; payload writes stay in bounds |
| MspParser.MspParser.Reset | lib/ff_core/msp_parser.cpp:7-16 | back to a stream with nothing fed |
| MspParser.HearsEveryReply | lib/ff_core/msp_parser.cpp:18-131 | of any replies with anything between them, damaged and overlong replies included, every one is taken where it was sent if and only if no noise leaves the parser in the middle of a frame; then exactly those not too long are heard, as built, besides what the noise holds itself, and the parser ends in sync |
| MspParser.AcceptedIsAReply | lib/ff_core/msp_parser.cpp:69-73 | a string is accepted exactly if it is an encoded reply of at most 128 bytes of payload |
| MspParser.BuiltFrameParsesBack | lib/ff_core/msp_fc.cpp:43-86 | what a builder makes, as a reply, parses back |
| MspParser.MspParser.FeedHeader | lib/ff_core/msp_parser.cpp:20-40 | resynchronising on anything that is no header |
| MspParser.MspParser.FeedV1Head | lib/ff_core/msp_parser.cpp:42-56 | size and id of version 1 |
| MspParser.MspParser.FeedV1Payload | lib/ff_core/msp_parser.cpp:58-67 | one payload byte, in bounds, kept unless the frame is too long |
| MspParser.MspParser.FeedV2Head | lib/ff_core/msp_parser.cpp:80-103 | flag, id and the low size byte of version 2 |
| MspParser.MspParser.FeedV2SizeHi | lib/ff_core/msp_parser.cpp:105-111 | the size of version 2 is complete |
| MspParser.MspParser.FeedV2Payload | lib/ff_core/msp_parser.cpp:113-122 | one payload byte, in bounds, kept unless the frame is too long |
| MspParser.MspParser.FeedCrc | lib/ff_core/msp_parser.cpp:69-73 | true exactly for the right checksum of a frame that is kept |
| MspParser.HeardIffSeeking | lib/ff_core/msp_parser.cpp:18-131 | after any stream at all, the next reply is taken where it was sent if and only if the parser is looking for a header, and is then heard unless it is too long |
| MspParser.HearsAfterDamage | test/test_msp_parser/test_msp_parser.cpp:86-98 | a reply damaged in any one byte but its header and size is not heard, and the next one is |
| MspParser.SwallowedByNoise | lib/ff_core/msp_parser.cpp:42-67 | four bytes of noise that promise 255 bytes of payload swallow the good reply behind them |
| MspParser.MspParser.SeekingStates | lib/ff_core/msp_parser.cpp:18-40 | the parser is looking for a header exactly in its four header states |
| FcModes.DecodeActiveModes | lib/ff_core/msp_fc.cpp:188-207 | a mode is active exactly if a flagged box carries its permanent id |
| FcModes.ModeOf | lib/ff_core/msp_fc.cpp:199-204 | the one mode with that id, or none |
| FcModes.IdsInOrder | lib/ff_core/msp_fc.cpp:8-39 | the modes have the ids from 0 to 37 in their order, but for eight that are not used |
| Ubx.UbxChecksum | lib/ff_core/ubx.cpp:47-55 | the two sums over the range |
| Ubx.SumNoticesOneByte | lib/ff_core/ubx.cpp:47-55 | the checksum notices any change of one byte |
| Ubx.UbxFormatIsSound | lib/ff_core/ubx.cpp:63-71 | the sync bytes differ, so a header holds the start byte only in front |
| Ubx.DecodeOfEncode | lib/ff_core/ubx.cpp:31-43 | decoding a built message gives the message |
| Ubx.EncodeOfDecode | lib/ff_core/ubx.cpp:63-115 | an intact string is byte for byte the encoding of what it decodes to |
| Ubx.FinishFrame | lib/ff_core/ubx.cpp:31-43 | the frame around a payload already in place; nothing else changes |
| Ubx.BuildCfgRate | lib/ff_core/ubx.cpp:213-224 | the rate message, or 0 with the buffer untouched |
| Ubx.BuildCfgPrtUart | lib/ff_core/ubx.cpp:226-243 | the port message, or 0 with the buffer untouched |
| Ubx.BuildCfgMsg | lib/ff_core/ubx.cpp:245-254 | the request for one message, or 0 with the buffer untouched |
| Ubx.BuildLegacyNavConfig | lib/ff_core/ubx.cpp:199-211 | the four requests in a row, or 0 |
| Ubx.UbxFormatIsSteady | lib/ff_core/ubx.cpp:71-115 | behind the sync bytes no byte is given up before the message is complete |
| UbxParser.UbxParser.Feed | lib/ff_core/ubx.cpp:63-115 | true exactly at the last byte of a message with matching checksum and at most 128 bytes of payload, exposing it |
| UbxParser.UbxParser.Reset | lib/ff_core/ubx.cpp:57-61 | back to a stream with nothing fed |
| UbxParser.HearsEveryMessage | lib/ff_core/ubx.cpp:63-115 | of any messages with anything between them, damaged and overlong messages included, every one is taken where it was sent if and only if no noise leaves the parser in the middle of a frame; then exactly those not too long are heard, as built, besides what the noise holds itself, and the parser ends in sync |
| UbxParser.AcceptedIsAMessage | lib/ff_core/ubx.cpp:107-112 | a string is accepted exactly if it is an encoded message of at most 128 bytes of payload |
| UbxParser.ChainParsesBack | lib/ff_core/ubx.cpp:199-254 | messages built one after the other are heard one after the other |
| UbxParser.LegacyConfigParsesBack | lib/ff_core/ubx.cpp:199-211 | the four messages of the legacy navigation set are heard one after the other |
| UbxParser.UbxParser.FeedSync | lib/ff_core/ubx.cpp:65-70 | resynchronising on anything that is no header |
| UbxParser.UbxParser.FeedHead | lib/ff_core/ubx.cpp:71-88 | class, id and the low length byte enter the sums |
| UbxParser.UbxParser.FeedLenHi | lib/ff_core/ubx.cpp:89-96 | the length is complete |
| UbxParser.UbxParser.FeedPayload | lib/ff_core/ubx.cpp:97-103 | one payload byte, in bounds, kept unless the message is too long |
| UbxParser.UbxParser.FeedCkA | lib/ff_core/ubx.cpp:104-106 | the first checksum byte is kept for the second |
| UbxParser.UbxParser.FeedCkB | lib/ff_core/ubx.cpp:107-112 | true exactly for the right checksum of a message that is kept |
| UbxParser.HeardIffSeeking | lib/ff_core/ubx.cpp:63-115 | after any stream at all, the next message is taken where it was sent if and only if the parser is looking for a header, and is then heard unless it is too long |
| UbxParser.HearsAfterDamage | lib/ff_core/ubx.cpp:104-115 | a message damaged in any one byte but its sync bytes and length is not heard, and the next one is |
| UbxParser.SwallowedByNoise | lib/ff_core/ubx.cpp:71-103 | six bytes of noise that promise 255 bytes of payload swallow the good message behind them |
| UbxParser.UbxParser.SeekingStates | lib/ff_core/ubx.cpp:63-70 | the parser is looking for a header exactly in its two sync states |
| WireExamples.LittleEndian | lib/ff_core/wire_format.h:22-32 | byte i of a number on the wire is its digit i to the base 256 |
| WireExamples.PositionLayout | lib/ff_core/protocol.cpp:27-40 | where each field of a position packet stands, as a number |
| WireExamples.AnnounceLayout | lib/ff_core/protocol.cpp:42-56 | where each field of an announcement stands |
| WireExamples.SetTenHertz | test/test_ubx/test_ubx.cpp:48-56 | the message that asks for ten solutions a second is, byte for byte, the one the maker of the receiver gives |
| WireExamples.EnablePvt | test/test_ubx/test_ubx.cpp:58-65 | and so is the one that asks for NAV-PVT |
| WireExamples.CheckValue | lib/ff_core/msp_crc.h:10-17 | the CRC-8/DVB-S2 of the digits 1 to 9 is 0xBC |
| WireExamples.RequestRawGps | test/test_msp_fc/test_msp_fc.cpp:18-24 | the version 1 request for the position, byte for byte |
| WireExamples.RequestLayout | test/test_msp_fc/test_msp_fc.cpp:41-57 | where each field of a version 2 request stands |
| RadioTx.NothingLost | src/hal/RadioLoRa.cpp:313-358 | over any interleaving: calls are frames started, held or dropped; started ones keep the order of the calls and go out at the power wanted; a held one waits only behind one on the air |
| RadioTx.StepKeepsOrder | src/hal/RadioLoRa.cpp:313-514 | every event keeps the radio orderly: nothing lost, order kept, powers right |
| RadioTx.AlwaysOrderly | src/hal/RadioLoRa.cpp:313-514 | every run from the quiet radio is orderly |
| RadioTx.DroppedOnlyBehindTwo | src/hal/RadioLoRa.cpp:317-331 | a frame is dropped exactly if one is on the air and the slot is taken or does not fit it |
| RadioTx.HeldGoesNext | src/hal/RadioLoRa.cpp:492-505 | the held frame starts as soon as the present one is over, at the power wanted by then |
| RadioTx.OnlyItsEndEnds | src/hal/RadioLoRa.cpp:390-415 | nothing but its own end takes a frame off the air, and the watchdog ends one that lasts over 500 ms |
| RadioTx.TxSlot.Push | lib/ff_core/tx_slot.h:46-55 | a frame is held exactly if the slot is free and it fits; a held one is never overwritten |
| RadioTx.TxSlot.Clear | lib/ff_core/tx_slot.h:60-63 | the slot is free |
| RadioTx.RadioLoRa.Transmit | src/hal/RadioLoRa.cpp:313-333 | now, after the present one, or dropped |
| RadioTx.RadioLoRa.StartTx | src/hal/RadioLoRa.cpp:335-349 | the frame is on the air with the front end on transmit; at no moment on the way are both amplifiers on |
| RadioTx.RadioLoRa.SendPending | src/hal/RadioLoRa.cpp:351-358 | the held frame starts and the slot is free |
| RadioTx.RadioLoRa.SetPower | src/hal/RadioLoRa.cpp:265-287 | a changed power is wanted from now on (RadioTx.WantedIsAsked), and applied at once, or waits for the frame on the air |
| RadioTx.RadioLoRa.AfterFrame | src/hal/RadioLoRa.cpp:495-505 | waiting power, then the waiting frame, else listening |
| RadioTx.RadioLoRa.ServiceRx | src/hal/RadioLoRa.cpp:378-514 | one service pass is one step of the protocol, the watchdog counted; no start, power change or reception is asked of a chip on the air |
| RadioTx.RadioLoRa.FrontEndTx | src/hal/RadioLoRa.cpp:296-304 | the receive amplifier goes off before the power amplifier comes on: each switch may only be closed while the other is open |
| RadioTx.RadioLoRa.ReceiveAll | src/hal/RadioLoRa.cpp:306-311 | the power amplifier is off and the chip listens |
| RadioTx.WantedIsAsked | src/hal/RadioLoRa.cpp:265-287 | over any run the power wanted is that of the last request, or the first one if there was none |
| RadioTx.StartedAsAsked | src/hal/RadioLoRa.cpp:334-349 | every frame that goes on the air is one that was handed over, and goes out at the power last asked for before it was started |
| RadioTx.OneStartAStep | src/hal/RadioLoRa.cpp:313-358 | an event starts at most one frame |
| Config.UidRoundTrip | lib/ff_core/config.cpp:66-98 | every 32-bit uid survives its eight hexadecimal digits |
| Config.RoundTripIffNoPlaceholder | lib/ff_core/config.cpp:104-148 | the document carries the settings whole, onto any others and version aside, if and only if no string of theirs is the placeholder |
| Config.RedactedMergeIsIdentity | lib/ff_core/config.cpp:16-37 | posting back the redacted document changes nothing |
| Config.RedactedTellsNothing | lib/ff_core/config.cpp:31-37 | the redacted document depends on a secret only in whether there is one |
| Config.MergeOfDocument | lib/ff_core/config.cpp:238-296 | what merging a document of other settings leaves, field by field |
| Config.FollowRoundTrip | lib/ff_core/config.cpp:48-100 | the follow block survives document and merge |
| Config.MergeIsIdempotent | lib/ff_core/config.cpp:238-296 | merging a document twice is merging it once |
| Config.UnmentionedIsKept | lib/ff_core/config.cpp:39-46 | what a document does not mention stays |
| Config.MergeIsHoldable | lib/ff_core/config.cpp:16-29 | merged strings fit their buffers |
| Config.MergeFollow | lib/ff_core/config.cpp:48-84 | the merge of the follow block, the uid read again as digits |
| Config.ConfigMergeJson | lib/ff_core/config.cpp:238-296 | the merged settings if they are valid, else none of them |
| Config.ConfigSeedFlashed | lib/ff_core/config.cpp:298-315 | the flashed strings if there are any and the result is valid, else no change |
| Config.AlwaysValid | lib/ff_core/config.cpp:238-315 | over any merges and seedings valid settings stay valid |
| Config.MergesCompose | lib/ff_core/config.cpp:48-84 | one document merged after another does what both in one do, if and only if the second mentions no string as the placeholder and no unknown heading mode where the first had changed the field |
| Config.MergesApart | lib/ff_core/config.cpp:48-100 | two documents that act differently one after the other and both in one |
| ConfigDocument.ConfigValidate | lib/ff_core/config.cpp:150-236 | the verdict on settings: the first rule that is broken, none exactly if they are valid |
| ConfigDocument.ValidIffNoneBroken | lib/ff_core/config.cpp:150-236 | settings are valid exactly if none of the sixteen rules is broken |
| ConfigDocument.DocumentSays | lib/ff_core/config.cpp:104-148 | each setting stands in the document under its own name, in its own section |
| ConfigDocument.RateSays | lib/ff_core/config.cpp:114-119 | so do those of the rate |
| ConfigDocument.RadioSays | lib/ff_core/config.cpp:131-143 | and those of radios and network |
| ConfigDocument.SecretsSay | lib/ff_core/config.cpp:31-37 | a secret stands there as it is, or redacted as the placeholder if there is one |
| ConfigDocument.NumbersRead | lib/ff_core/config.cpp:42-46 | a number that fits is taken, cut off towards zero, and any other counts as 0 |
| ConfigDocument.SwitchesRead | lib/ff_core/config.cpp:42-46 | numbers and switches stand for each other |
| ConfigDocument.TextsRead | lib/ff_core/config.cpp:16-29 | a text goes into its field as far as it fits, but for the placeholder |
| ConfigDocument.UidReads | lib/ff_core/config.cpp:59-65 | one to eight digits of either case are read as the number they write |
| ConfigDocument.PrefixedUidReads | lib/ff_core/config.cpp:59-65 | also behind 0x |
| ConfigDocument.NoUidReads | lib/ff_core/config.cpp:59-65 | and no digits as 0 |
| ConfigDocument.SeedingIsMerging | lib/ff_core/config.cpp:298-315 | the first boot of a flashed image leaves what merging its strings as a document would, but that an empty string counts as none |
| Trailer.FindFirmwareEnd | scripts/elrs_targets.py:168-191 | the walk over the segments, rounded up, with the digest on all but ESP8266 images; failure for a bad mark or a header beyond the file |
| Trailer.Fixed | scripts/elrs_targets.py:194-195 | exactly the size: filled up with zeros or cut |
| Trailer.BuildTrailer | scripts/elrs_targets.py:198-206 | 2704 bytes, or failure exactly for a layout that does not fit |
| Trailer.Configure | scripts/elrs_targets.py:244-252 | the image up to its end, filled up, and the trailer |
| Trailer.EndDependsOnItsImage | scripts/elrs_targets.py:168-191 | the position found depends only on bytes before it |
| Trailer.ConfiguringOverwrites | scripts/elrs_targets.py:244-252 | configuring a configured image gives what configuring the original gives |
| Trailer.TrailerIsPlaced | scripts/elrs_targets.py:244-252 | the trailer stands at that position, a multiple of 16, behind the untouched image |
| Trailer.NothingBehindMatters | scripts/elrs_targets.py:244-252 | images equal up to the position give the same result |
| Trailer.ReadSize | scripts/elrs_targets.py:186 | the 32-bit length of a segment |
| Trailer.FixedReadsBackIff | scripts/elrs_targets.py:194-195 | a text is read back if and only if it fits the field, its full size included, and holds no zero; a longer one is read back cut off |
| Trailer.FieldsReadBackIff | scripts/elrs_targets.py:198-206 | which of product name, device name, options and layout are read back from the trailer, each if and only if it fits its field and holds no zero |
| Trailer.LongNameIsCut | scripts/elrs_targets.py:194-206 | a product name of 129 letters is accepted, loses its last letter, and gives the trailer of the shorter name |
| FirmwareImage.EndOfImage | scripts/elrs_targets.py:168-191 | an image put together from a header and segments, with anything behind it, ends behind its last segment, at the next multiple of 16 behind that, and behind the digest |
| FirmwareImage.EndOfBootImage | scripts/elrs_targets.py:168-191 | one that begins with a boot loader of two segments ends behind the segments of the application at 0x1000 |
| FirmwareImage.WalkEndsBehind | scripts/elrs_targets.py:184-187 | the walk over headers ends behind the segments that were laid out |
| FirmwareImage.WalkGoesOverSegments | scripts/elrs_targets.py:184-187 | and wherever it ends inside the file, what it went over are that many segments |

## Left out

- Ccm.CcmEncrypt: with nonces of 7 to 10 bytes `buildCtrBlock` shifts a 32-bit counter by 32 bits or more, which C++ leaves open: the ciphertext and the tag are then any bytes. The firmware uses 13 bytes only.
- Ccm.BuildCtrBlock: with nonces of 7 to 10 bytes any bytes, as for Ccm.CcmEncrypt.
- Ccm.BuildFirstBlock: with nonces of 7 to 10 bytes any bytes, as for Ccm.CcmEncrypt.
- Ccm.ComputeMac: with nonces of 7 to 10 bytes any bytes, as for Ccm.CcmEncrypt.
- Ccm.CtrCrypt: with nonces of 7 to 10 bytes any bytes, as for Ccm.CcmEncrypt.
- Ccm.MaskTag: with nonces of 7 to 10 bytes any bytes, as for Ccm.CcmEncrypt.
- Ccm.CcmDecrypt: with nonces of 7 to 10 bytes any verdict, as for Ccm.CcmEncrypt. It says who is accepted, not how hard a forgery is, and nothing of the time the comparison takes.
- Crypto.CcmCrypto.Victim: the slot given up is the one silent longest only while no clock difference reaches 2^31, because the code compares signed differences.
- Crypto.TakenOnce: an epoch ends with a reset of the slot (first contact, eviction, ten seconds of silence); a counter of an earlier epoch may be accepted again, as in the code.
- SpscRing.GivesUpExactlyWhen: the count of refused items is unbounded instead of 32 bits; atomic loads and stores are sequentially consistent steps, the weaker memory orders are not modelled.
- Scheduler.Scheduler.Poll: the delays its callbacks ask for are 1 to 2^31-1, their periods below 2^30 if any of them cancels a timer, and a poll is less than 2^31 late: beyond that the signed differences of the code overflow. `after`, `every` and `rearm` themselves take any delay. A callback that polls is not covered.
- Scheduler.FiresEveryPeriod: requires polls at most one period apart; a poll that is later restarts the grid, as the code does.
- FrameLog.Serve: takes any 32-bit cursor; the request handler reads it as a signed number (`WebServer.cpp:601`), so that a cursor of 2^31 or more does not come back as it was sent.
- FrameLog.EveryFrameAccounted: without a clear of the log, for a total below 2^31, without an overflow of the JSON answer, and without the page's limit on how many frames it keeps on screen.
- PeerTable.PeerTable.AllocSlot: the oldest entry is that of the smallest 32-bit timestamp, as the code compares them (`peer_table.cpp:31`); it is the one silent longest only while the clock has not wrapped.
- PeerTable.PeerTable.CountActiveOn: the bound by the active peers holds while the clock has not wrapped; the counts themselves hold always.
- Follow.EveryWaypointSafe: over real numbers; rounding of doubles and the overflow of the rounded altitude beyond 32 bits are not modelled.
- Follow.FollowController.Service: the telemetry hint to the flight controller, the name of the locked peer and the fields kept only for the status report are dropped; the error texts of a refused configuration too.
- MspParser.MspParser.Feed: the accessors are the fields themselves.
- RadioTx.RadioLoRa.ServiceRx: one chip; the second chip and antenna diversity, where the transmit index may change while a frame is out, are not modelled, nor what is received.
- RadioTx.RadioLoRa.Transmit: a driver that found no chip, and then ignores every call, is not modelled.
- RadioTx.TxSlot.Push: an absent buffer (a null pointer) is not modelled.
- Config.ConfigMergeJson: the names of document members are constructors; a number inside a string is not read out of it, as the JSON library would for a number field; error texts are dropped, but for which rule is broken first.
- Config.RoundTripIffNoPlaceholder: numbers travel as they are, without the rounding of a text form of a JSON document.
- Trailer.Configure: the lookup of the target, its layout and the option texts are parameters.
- Guidance.BesideLeader: the projection of a slot is a parameter (`slotToLatLon`, `geo.cpp`), assumed to place points to the grid of coordinates; that the great-circle formulas do is not shown.
- Guidance.SpeedFollowsLag: the correction is a parameter, assumed to obey the braking law it is computed by (`follow.cpp:403-405`), without the rounding of floats.
- Rate control, airtime, band presets and power tables: floating-point formulas and finite tables.
- When each part of a node runs: `Node` models what the parts do, `Scheduler` when timers fire; the beacon delay that joins them comes from rate control.
- Key derivation from the passphrase: the first 16 bytes of the digest of `Sha256`.
- The reply decoders of `msp_fc.cpp` and `ubx.cpp` and the MSP command payloads: fixed offsets without branching.
- Web handlers, file storage, drivers, simulator, display, and the version 1 code under `src/lib`.

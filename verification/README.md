# ristSTB: verified models

Dafny 4.11 models of the parts of this repository where most depends on reasoning across many steps, with
proofs about every input and every sequence of steps. `dafny verify dfyconfig.toml` checks the whole project.

- **The Part 7 marker link** (VSF TR-06-4 Part 7). The producer that inserts a CRC-protected marker after every
  five payloads, a channel that may lose or damage any packet, and the consumer that resynchronises, validates
  counts, hands blocks on and runs a circuit breaker: `Crc32`, `MarkerCodec`, `FailureWindow`, `MarkerSession`,
  `MarkerRuns`, `MarkerHistory`, `MarkerMultiplexer`, `MarkerWire`, `MarkerLink`, `MarkerLoss`, `MarkerCompleteness`.
- **The librist receive side**: the sequence-indexed ring (`ReceiveRing`, `ReceiveOrder`, `ReceiveFlow`), the missing
  queue with its NACK accounting (`MissingQueue`, `RequestHistory`, `MissingList`), the two together (`ReceivePath`),
  full-stream requests (`FullStreamRequest`, `FsrMonitor`) and the tree of peers with its arrays (`PeerLists`, `PeerTree`).
- **PID filtering and null-packet deletion** (`ProgramSelection`, `PsiSections`, `PidFilter`, `NullPackets`,
  `NullPacketBuffers`).
- **Cryptography**: streaming SHA-256 (`Sha256`, `Sha256Constants`, `Sha256Digest`), the fast PBKDF2 (`Pbkdf2`), AES
  (`AesTables`, `AesColumns`, `Aes`, `AesKeySchedule`, `AesExamples`, `AesInPlace`) and its modes
  (`BlockModes`, `Ccm`, `AesModes`).
- **The in-place block exchange** behind `getopt` (`PermuteArgs`).
- `Bytes` holds fixed-width integers, their byte images and the cutting of byte strings into transport packets,
  `Sequences` what both linked structures need of sequences without repetitions.

Code that changes fields, arrays or linked nodes step by step is a class or a method proved against a
specification function; what the source promises is then proved about that function, for single steps and for
whole runs. Clocks, allocation results, send results, connection state and the fate of each packet on a channel
are inputs without restriction beyond what a row says.

## What the code does that its comments do not say

- `librist/include/common/attributes.h:94`: the macro meant to clear a bit keeps it and clears the others. A payload
  without sync byte therefore leaves the null-deletion flag set (`NullPacketBuffers.SuppressNullPackets`).
- `librist/src/program-selection.c:829`: the end of the stream loop lies three bytes before the check sum, so the last
  stream of a program map is missed exactly when it has fewer than three bytes of descriptors
  (`ProgramSelection.MapReadInFull`).
- `librist/src/rist-common.c:460-464`: the test against wrap-around lets a jump of zero pass; a new packet under the
  number last found marks every other number as missing. Two packets suffice (`ReceivePath.FloodReached`). When
  packets are timed by their arrival (`:3232-3233`) any copy of the newest packet that the network makes is such a pair.
- `librist/src/rist-common.c:630`: the mask `UINT16_MAX -1` also clears the lowest bit, so the number expected next is
  always even (`ReceiveRing.ExpectedOnlyWhenEven`).
- `librist/src/rist-common.c:623-627`: the comment says that a packet the reader has passed is dropped, but only its age
  is tested, against 1.1 times the buffer. A younger one is stored behind the reader and handed over after its successors
  as soon as nothing waits ahead (`ReceiveOrder.GoesBackExactly`, `ReceiveOrder.OutOfOrderReached`).
- `librist/src/rist-common.c:3138`: the null-packet bits and the size of a received packet go into the expansion
  unchecked. Bits that name a packet past the last one make it copy more than the payload holds
  (`NullPackets.CopiesStayInside`, `NullPackets.LowestBitReadsPastEnd`); more than seven packets in all, which
  the bits and the size allow (`NullPackets.NinePackets`), make it shift by a negative amount
  (`librist/src/mpegts.c:76`), and the model ends there.
- `librist/src/rist-common.c:1264-1288`: a request whose number has a new upper half is written without a look at the
  length of the array when there is nobody to send to (`MissingQueue.RoomExactly`, `MissingQueue.OverrunReached`). An
  array that such passes have filled is thrown away later (`MissingQueue.EveryRequestIsSent`). The first needs 32-bit
  numbers.
- `librist/src/rist-common.c:452-459` indexes the ring with unmasked numbers, and `:465-493` counts up to the current
  one without wrapping at 16 bits: a flow of 32-bit numbers would read past its ring of 524288 slots from number
  524288 on, and mark that many numbers after each wrap of the 16-bit ones (`MissingQueue.LongGapSize`). Numbers come
  from a 16-bit header field (`:3237`), so the reads stay inside (`ReceivePath.Run`), and such flows are not created:
  `librist/src/rist.c:41-45` turns the advanced profile, which would use them, into the main profile.
- `librist/src/rist-common.c:4794-4811`: the agent is chosen afresh every cycle, so a Disable may go to another agent
  than the Enable did, and the first keeps serving (`FullStreamRequest.SupersededAgentKeepsServing`). It cannot happen
  while the choice stays the same (`FullStreamRequest.AllAgreeOnOneAgent`).
- `librist/contrib/fastpbkdf2.c:253`: the rounded length is cut to 32 bits before it is divided, so from an output length
  of 2^32 - 31 on too few blocks are written and the rest of the buffer stays as it was (`Pbkdf2.WrittenIsPrefix`).
- `librist/src/flow.c:93-119`: deleting a flow also clears the flow of the sides of its peers, whatever flow these
  belong to; a peer of another flow may then stand in an array of a flow it no longer knows
  (`PeerTree.PeerContext.DeleteFlow`).
- `librist/contrib/aes.c:413` and `:457`: with a MAC of sixteen bytes the counter has no bytes left to step, and payload
  and MAC are masked from the same counter block on (`Ccm.CountersCoincide`).
- `librist/contrib/aes.c:940-1080`: outside 128, 192 and sizes above 192 the two directions of AES choose different
  numbers of rounds (`Aes.RoundsAgree`).
- `ristsender_marker.c:614-628`: the count of good blocks wraps at 2^32, so after that many RESTART is withheld until
  ten more (`MarkerHistory.RestartExactly`).
- `librist/src/rist-common.c:683`: a replaced packet's bytes stay in the byte counter
  (`ReceiveRing.CounterCoversQueue`).

## Model

| member | source | states |
|---|---|---|
| `Crc32.CrcTable.Init` | ristreceiver_with_markers.c:66-76 | After the one-time fill every table entry is eight shifts of its index byte through the generator polynomial of Annex A of ISO/IEC 13818-1. |
| `Crc32.CrcTable.Compute` | ristreceiver_with_markers.c:78-86 | For every message length the table-driven loop returns the bit-by-bit shift register of Annex A. |
| `Crc32.TableStepIsFeedByte` | ristsender_marker.c:189-209 | One table look-up does exactly what feeding the eight bits of a byte into the register does. |
| `Crc32.RegisterInjective` | ristsender_marker.c:201-209 | For a fixed message the register is an injective function of its starting value, so an error once in the register is never forgotten. |
| `Crc32.SingleByteChange` | ristsender_marker.c:201-209 | Two messages of equal length that differ in exactly one byte never have the same CRC. |
| `Crc32.AnnexAZero` | ristsender_marker.c:201-209 | Feeding four more bytes after a message leaves the register at zero if and only if they are its CRC. |
| `Crc32.CrcOfDigits` | ristsender_marker.c:189-209 | The CRC of the nine digits is the check value that catalogues give for this CRC, which fixes polynomial, initial value and bit order. |
| `MarkerCodec.ParseMarkerPacket` | ristsender_marker.c:229-277 | Reading back a generated marker packet gives every field it was built from, for all field values and every continuity counter. |
| `MarkerCodec.MarkerLayout` | ristreceiver_with_markers.c:129-190 | Every field of a generated marker lies as a big-endian number at its own place in the packet, the CRC after them covers the section before it, and the rest is stuffing. |
| `MarkerCodec.AcceptedIffRegisterZero` | ristsender_marker.c:229-256 | The comparison of the two CRC fields accepts exactly the sections on which the decoder rule of Annex A leaves zero. |
| `MarkerCodec.ChangedByteRejected` | ristsender_marker.c:229-277 | A valid marker with any single byte of its section changed is no longer accepted. |
| `MarkerCodec.MarkerPacketIsMarker` | ristreceiver_with_markers.c:129-195 | A generated marker has the sync byte and PID 0x1FF0, so the consumer recognises it as a marker. |
| `FailureWindow.ReplayRepresents` | ristsender_marker.c:280-298 | After any history of recorded failures each of the ten slots holds the latest failure of its residue class: the ring refines the full history. |
| `FailureWindow.ThresholdOfHistory` | ristsender_marker.c:280-298 | For every clock value, the test on the ten slots holds exactly when ten failures were recorded and the tenth most recent lies within ten seconds; before the clock has passed the window, and at that very instant, it says what the cleared slots make of it. |
| `MarkerSession.Callback.RecordValidationFailure` | ristsender_marker.c:295-298 | The failure time goes into the ring slot of the failure count, nothing else changes. |
| `MarkerSession.Callback.CheckValidationFailureThreshold` | ristsender_marker.c:280-293 | The loop over the ten timestamps decides the threshold of the specification. |
| `MarkerSession.Callback.TriggerCircuitBreaker` | ristsender_marker.c:301-331 | Tripping shuts the circuit down, releases the sender, and clears synchronisation, losses and failure times. |
| `MarkerSession.Callback.PrintRestartMessage` | ristsender_marker.c:337-352 | One call announces when nothing was announced since Recovery was entered or five seconds have passed since, and remembers the time. |
| `MarkerSession.Callback.SendBlockToRist` | ristsender_marker.c:411-462 | With a connected peer and a nonempty buffer the block goes out as groups of seven packets under consecutive RTP sequence numbers; otherwise nothing is sent. The buffer is emptied. |
| `MarkerSession.Callback.ProcessMarker` | ristsender_marker.c:464-668 | The in-place handler changes state, sends and announces exactly as the step function on sessions says, for every packet and environment. |
| `MarkerSession.Callback.BufferTsPacket` | ristsender_marker.c:670-691 | A source packet is counted as null or not and appended while a first marker has been seen and the buffer has room. |
| `MarkerSession.InputUdpRecv` | ristsender_marker.c:693-756 | A received datagram is the fold of the step function over its packets; a tail shorter than a packet is ignored. |
| `MarkerSession.PacketKeepsInvariant` | ristsender_marker.c:464-691 | Every packet keeps the session invariant: buffer index in bounds, non-null plus null equals buffered plus one in the Normal circuit after the first marker, a live sender exactly in Normal, Recovery only with a first marker seen, and fewer than ten consecutive losses after every marker; Normal is never re-entered and blocks are sent in Normal only. |
| `MarkerSession.UnusableIsLost` | ristsender_marker.c:464-472 | A packet without sync byte or a marker failing its checks has the same effect as losing it. |
| `MarkerSession.ReceiveAllConcat` | ristsender_marker.c:715-747 | How packets are split over datagrams makes no difference to the session or to the blocks sent. |
| `MarkerRuns.NeverNormalAgain` | ristsender_marker.c:301-331 | Over every run: once the circuit has left Normal it is never Normal again and nothing more is sent. |
| `MarkerRuns.RecoveryCounters` | ristsender_marker.c:477-497 | Over every run in Recovery, the counters describe the events since Recovery was entered. |
| `MarkerRuns.RestartIsEarned` | ristsender_marker.c:614-628 | RESTART is announced only after at least ten good blocks and ten seconds with no lost marker and no failed block since Recovery was entered. |
| `MarkerRuns.PaceRefinesHistory` | ristsender_marker.c:337-352 | Over every run the two times of the session are when Recovery was last entered and when the last announcement since then was made. |
| `MarkerRuns.AnnouncementsApart` | ristsender_marker.c:337-352 | Any two announcements of a run with a clock that does not go back are at least five seconds apart, also when Recovery was left and entered again between them. |
| `MarkerRuns.FailuresRefineHistory` | ristsender_marker.c:637-644 | Over every run the ring stands for all validation failures since the circuit last tripped. |
| `MarkerRuns.FailureTripIffTenWithinWindow` | ristsender_marker.c:629-644 | With a nondecreasing clock past the window, a failed block trips the breaker if and only if it is the tenth failure within ten seconds since the last trip. |
| `MarkerHistory.PacketStep` | ristsender_marker.c:464-691 | For a session that is what the packets w received so far say, every packet leaves it what w and that packet say, and its circuit, what it sends and whether it counts as failed follow from w, the packet and the environment. |
| `MarkerHistory.NormalTracked` | ristsender_marker.c:500-691 | Over every run, until the circuit first trips the session is what the packets received say: the last valid marker, the packets since, whether it came in sequence, and how many markers are missing. |
| `MarkerHistory.NormalDecides` | ristsender_marker.c:537-667 | In the Normal circuit a packet makes the sender send exactly if it closes a good block with a peer connected, and then that block; it trips the circuit exactly if it shows that ten or more markers are missing or closes a bad block whose time reaches the threshold. All of it is said of the packets received, not of the session. |
| `MarkerHistory.FirstMarkerRecovers` | ristsender_marker.c:477-497 | After a trip nothing changes until the first packet that parses as a marker, and that one puts the circuit in Recovery with its sequence number, its flow and its time. |
| `MarkerHistory.RecoveryTracked` | ristsender_marker.c:477-667 | While Recovery lasts the session is what the packets from the entry on say, and counts the good blocks among them. |
| `MarkerHistory.RecoveryEnds` | ristsender_marker.c:537-644 | A packet ends Recovery exactly if it shows a gap in the sequence or closes a bad block. |
| `MarkerHistory.RecoveryLasts` | ristsender_marker.c:477-667 | Recovery lasts exactly as long as the packets since its entry bring neither. |
| `MarkerHistory.RestartExactly` | ristsender_marker.c:614-628 | With a clock that does not go back, a packet in Recovery announces RESTART if and only if it closes a good block, at least ten good blocks were closed since the entry (a count that wraps at 2^32), ten seconds have passed since, and every announcement since is at least five seconds old. |
| `MarkerHistory.RecoveryHasEntry` | ristsender_marker.c:477-497 | Whenever the circuit is in Recovery there is such an entry, so the above speaks of every Recovery. |
| `MarkerMultiplexer.Multiplexer.FlushUdpBuffer` | ristreceiver_with_markers.c:97-113 | A nonempty buffer leaves as one datagram and is then empty. |
| `MarkerMultiplexer.Multiplexer.AddTsToUdpBuffer` | ristreceiver_with_markers.c:115-126 | Whatever is flushed on the way, the datagrams followed by the buffer are extended by exactly this packet. |
| `MarkerMultiplexer.Multiplexer.GenerateMetadataMarker` | ristreceiver_with_markers.c:129-195 | The marker carries the counters, sequence numbers and flow of the open block and its own CRC; only the continuity counter advances. |
| `MarkerMultiplexer.Multiplexer.CbRecv` | ristreceiver_with_markers.c:198-262 | One payload extends the output by its packets and, as the fifth of a block, by the marker closing it; an empty payload is refused. |
| `MarkerMultiplexer.CountTsPackets` | ristreceiver_with_markers.c:206-236 | The counting loop adds the numbers of null and of other synchronised packets, modulo 2^16. |
| `MarkerWire.MuxProducesWire` | ristreceiver_with_markers.c:198-262 | For every well-formed source the output is the source with marker j after block j carrying its exact counts: no packet is lost, altered or reordered. |
| `MarkerWire.NamesNextBlock` | ristreceiver_with_markers.c:177-180 | In a source numbered through, the marker of a block names the number at which the next block starts. |
| `MarkerLink.LinkInvariant` | ristsender_marker.c:464-691 | At every packet of the output and whatever the channel has done so far, a sender that last accepted the marker opening the current block holds no more than what was put out since, and if as much, then exactly that. |
| `MarkerLink.MarkerEffect` | ristsender_marker.c:587-610 | A marker makes the consumer send only in the Normal circuit, when it is next in sequence and all its counts agree, and then what is sent is the buffer under the marker's sequence number and flow. |
| `MarkerLink.SentIsBlock` | ristsender_marker.c:597-610 | A marker that makes the consumer send a block makes it send exactly the block that marker closes. |
| `MarkerLink.SentBlocksAreSourceBlocks` | ristsender_marker.c:411-668 | Soundness under loss: whatever subsequence arrives, with damaged markers acting as losses, every block sent is a source block byte for byte under its original RTP sequence numbers, in order and at most once. |
| `MarkerLoss.AlwaysTracked` | ristsender_marker.c:500-691 | At every packet of every lossy run a sender in the Normal circuit last accepted the marker that opened the current block exactly if that marker arrived; then it is synchronised exactly if the marker before arrived as well, and holds all of the block so far exactly if none of it was lost. |
| `MarkerLoss.WholeBlocksGetThrough` | ristsender_marker.c:537-667 | Which blocks get through: whatever is lost or damaged, a packet of the output adds to what was sent exactly if it closes a block that arrived whole, the two markers before it arrived, a peer is connected and the breaker has not tripped; and what it adds is that block. Two intact markers resynchronise after any loss the circuit survives. |
| `MarkerLoss.LossSurvivedExactly` | ristsender_marker.c:537-584 | A gap in the sequence leaves the circuit Normal if and only if the missing markers counted since the last one in sequence, modulo 2^32, are fewer than ten; the sender then waits for the next marker. |
| `MarkerLoss.TwoMarkersResynchronise` | ristsender_marker.c:537-589 | After such a gap the next marker in sequence synchronises again and clears the count, whatever other packets come between. |
| `MarkerCompleteness.AlwaysInStep` | ristsender_marker.c:587-667 | With nothing lost the consumer is in step with the producer after every single packet. |
| `MarkerCompleteness.EveryClosedBlockIsSent` | ristsender_marker.c:500-534 | With nothing lost and a connected peer the breaker never trips and exactly the blocks closed by the third and later markers have been sent, each once and in order. |
| `MarkerCompleteness.DatagramsCarryWire` | ristreceiver_with_markers.c:97-126 | Datagrams are always exactly seven packets and concatenate to a prefix of the output. |
| `MarkerCompleteness.Multiplex` | ristreceiver_with_markers.c:198-262 | The callback applied to a list of payloads puts out the whole wire. |
| `MarkerCompleteness.Deliver` | ristsender_marker.c:693-756 | The event loop over a list of datagrams is one run over their concatenation. |
| `MarkerCompleteness.LosslessLink` | ristsender_marker.c:464-747 | Both programs back to back: the blocks handed on are the third to the last whose marker lies in the datagrams sent, and the circuit is still Normal. |
| `PermuteArgs.Gcd` | librist/contrib/getopt-shim.c:138-151 | The loop returns the greatest common divisor, and a combination of the arguments that equals it. |
| `PermuteArgs.OrbitCloses` | librist/contrib/getopt-shim.c:170-186 | After (m + n) / gcd(m, n) steps the walk is back where it began. |
| `PermuteArgs.OrbitInjective` | librist/contrib/getopt-shim.c:170-186 | Before that no position is visited twice. |
| `PermuteArgs.OrbitReaches` | librist/contrib/getopt-shim.c:170-186 | It visits every position of its residue class modulo the gcd. |
| `PermuteArgs.CycleOf` | librist/contrib/getopt-shim.c:170-186 | Each cycle of the outer loop is one residue class, walked once. |
| `PermuteArgs.BlocksExchanged` | librist/contrib/getopt-shim.c:158-188 | Once every class is done, the array is the second block followed by the first, each in its own order. |
| `PermuteArgs.WalkCycle` | librist/contrib/getopt-shim.c:174-187 | One walk moves the whole class to its places and touches nothing else. |
| `PermuteArgs.PermuteArgs` | librist/contrib/getopt-shim.c:158-188 | The two adjacent blocks of any nonzero lengths trade places; everything outside is unchanged. |
| `Sha256.Sha256Ctx.Transform` | librist/contrib/sha256.c:53-92 | One block through the in-place rounds is the compression function of section 6.2.2 of FIPS 180-4. |
| `Sha256.Sha256Ctx.Update` | librist/contrib/sha256.c:108-121 | The context has absorbed what it had before followed by the new bytes, however the input was cut. |
| `Sha256.Sha256Ctx.Final` | librist/contrib/sha256.c:123-167 | The digest of a context that has absorbed m is the hash of m as FIPS 180-4 defines it on whole messages. |
| `Sha256.PaddedBlocks` | librist/contrib/sha256.c:123-155 | The two cases of the final block are the padding of section 5.1.1 for every length. |
| `Sha256.FoldPrefix` | librist/contrib/sha256.c:108-121 | The hash value after k blocks depends on those blocks only. |
| `Sha256Constants.RoundConstants` | librist/contrib/sha256.c:41-50 | Each round constant is the first 32 bits of the fractional part of the cube root of its prime, by integer cubes, and the primes are consecutive from 2 (section 4.2.2 of FIPS 180-4). |
| `Sha256Constants.InitialHashValue` | librist/contrib/sha256.c:94-106 | Each word of the initial value is the same of the square root of its prime (section 5.3.3). |
| `Sha256Constants.ChChooses` | librist/contrib/sha256.c:33 | Each bit of x chooses between the bits of y and z. |
| `Sha256Constants.MajIsMajority` | librist/contrib/sha256.c:34 | Each bit is the majority of the three. |
| `Sha256Constants.RotrMovesBits` | librist/contrib/sha256.c:31-38 | For each of the ten amounts that occur, the rotation moves bit i + n to place i, going round. |
| `Sha256Digest.AbcDigest` | librist/contrib/sha256.c:53-167 | The digest of "abc" is the published one, carried word by word through the schedule and round by round through the compression. |
| `Pbkdf2.MdPadIsPadding` | librist/contrib/fastpbkdf2.c:90-96 | The fixed padding block is the padding of a 96-byte message. |
| `Pbkdf2.TwoBlockHash` | librist/contrib/fastpbkdf2.c:207-229 | Hashing a key block and a digest is two compressions from the initial value, the second on the digest and the fixed padding. |
| `Pbkdf2.HmacOfDigest` | librist/contrib/fastpbkdf2.c:216-230 | HMAC of a digest is what the inner loop computes from the two copied states. |
| `Pbkdf2.XorStateBytes` | librist/contrib/fastpbkdf2.c:291-301 | Adding states word by word adds their byte images. |
| `Pbkdf2.KeyBlocks` | librist/contrib/fastpbkdf2.c:138-180 | Keys longer than a block are hashed and shorter ones padded, then combined with the two pads of section 2 of RFC 2104. |
| `Pbkdf2.PadBytes` | librist/contrib/fastpbkdf2.c:158-172 | In both pads a byte of the key, or a zero after its end, meets the same constant of section 2 of RFC 2104. |
| `Pbkdf2.HmacCtx.Final` | librist/contrib/fastpbkdf2.c:188-196 | Initialise, update and finish compute HMAC-SHA256 of everything fed in. |
| `Pbkdf2.NextU` | librist/contrib/fastpbkdf2.c:219-230 | One pass of the inner loop takes U_j to U_{j+1}, in place in the block buffer. |
| `Pbkdf2.Pbkdf2F` | librist/contrib/fastpbkdf2.c:198-238 | The block function is the exclusive or of the c iterates of section 5.2 of RFC 8018. |
| `Pbkdf2.Derive` | librist/contrib/fastpbkdf2.c:240-265 | For every password, salt, iteration count of at least one and nonzero output length, the blocks of section 5.2 of RFC 8018 up to the truncated block count are written; the whole derived key when rounding the length up stays within 32 bits. |
| `Pbkdf2.WrittenIsPrefix` | librist/contrib/fastpbkdf2.c:253 | What is written is the beginning of the derived key, and all of it exactly if the output length plus 31 is below 2^32. |
| `AesKeySchedule.RconIsPower` | librist/contrib/aes.c:568-570 | The table holds the first fifteen powers of x in the field, each in the top byte of a word. |
| `AesKeySchedule.RotWordBytes` | librist/contrib/aes.c:35 | The rotation moves the four bytes one place up, the first to the end. |
| `AesKeySchedule.KeySetup` | librist/contrib/aes.c:565-593 | For 128, 192 and 256 the two loops fill the array with the key expansion of section 5.2 of FIPS 197 and leave the rest of it alone; any other size is refused. |
| `AesKeySchedule.WindowDeterminesKey` | librist/contrib/aes.c:579-591 | Any run of consecutive words of a schedule as long as the key determines the key, so no two keys share a schedule or their last round keys. |
| `AesExamples.KeyExpansionExample` | librist/contrib/aes.c:565-593 | The last four words of the 128-bit schedule worked out in section A.1 of FIPS 197. |
| `AesExamples.LongKeyExample` | librist/contrib/aes.c:579-591 | Words 8 to 12 of the 256-bit one of section A.3; the last is the first that is substituted without a rotation. |
| `AesTables.InvSboxOfSbox` | librist/contrib/aes.c:54-92 | The inverse S-box undoes the S-box on all 256 bytes. |
| `AesTables.SboxOfInvSbox` | librist/contrib/aes.c:54-92 | And the S-box undoes the inverse S-box. |
| `AesExamples.SboxIsAffineInverse` | librist/contrib/aes.c:54-71 | Every entry of the S-box is the affine image of the inverse in the field, for all 256 bytes (section 5.1.1 of FIPS 197). |
| `AesTables.Mul02IsDouble` | librist/contrib/aes.c:98-227 | Column 0 of the multiplication table is multiplication by two in the field of section 4.2 of FIPS 197, for all 256 bytes. |
| `AesTables.Mul03IsTriple` | librist/contrib/aes.c:98-227 | Column 1 of the multiplication table is multiplication by three in the field of section 4.2 of FIPS 197, for all 256 bytes. |
| `AesTables.Mul09IsNine` | librist/contrib/aes.c:98-227 | Column 2 of the multiplication table is multiplication by nine in the field of section 4.2 of FIPS 197, for all 256 bytes. |
| `AesTables.Mul0BIsEleven` | librist/contrib/aes.c:98-227 | Column 3 of the multiplication table is multiplication by eleven in the field of section 4.2 of FIPS 197, for all 256 bytes. |
| `AesTables.Mul0DIsThirteen` | librist/contrib/aes.c:98-227 | Column 4 of the multiplication table is multiplication by thirteen in the field of section 4.2 of FIPS 197, for all 256 bytes. |
| `AesTables.Mul0EIsFourteen` | librist/contrib/aes.c:98-227 | Column 5 of the multiplication table is multiplication by fourteen in the field of section 4.2 of FIPS 197, for all 256 bytes. |
| `AesColumns.InvMixOfMix` | librist/contrib/aes.c:756-934 | InvMixColumns inverts MixColumns on every column. |
| `AesExamples.MixMultiplies` | librist/contrib/aes.c:756-839 | A column is multiplied by the polynomial of section 5.1.3 of FIPS 197. |
| `AesExamples.ShiftMovesRows` | librist/contrib/aes.c:697-721 | Row r of the state moves r places to the left. |
| `Aes.UndoneMeetsRounds` | librist/contrib/aes.c:1013-1080 | Decryption passes backwards through exactly the states encryption passed through. |
| `Aes.RoundsAgree` | librist/contrib/aes.c:940-1080 | The two directions choose the same number of rounds if and only if the key size is 128, 192 or above 192. |
| `Aes.DecryptOfEncrypt` | librist/contrib/aes.c:940-1080 | Decryption inverts encryption for every block, every array of round keys and every key size on which the directions agree, hence 128, 192 and 256. |
| `AesExamples.CipherExample` | librist/contrib/aes.c:940-1011 | The worked example of appendix B of FIPS 197, round by round. |
| `AesInPlace.AddRoundKey` | librist/contrib/aes.c:603-645 | Each column of the state array is combined with its key word. |
| `AesInPlace.SubBytes` | librist/contrib/aes.c:652-670 | Every byte of the state array is substituted. |
| `AesInPlace.ShiftRows` | librist/contrib/aes.c:697-721 | Row r of the state array is rotated r places to the left. |
| `AesInPlace.InvShiftRows` | librist/contrib/aes.c:723-747 | Row r of the state array is rotated r places to the right. |
| `AesInPlace.MixColumns` | librist/contrib/aes.c:756-844 | Each column of the state array is mixed by the table. |
| `AesInPlace.InvMixColumns` | librist/contrib/aes.c:846-934 | Each column of the state array is unmixed by the table. |
| `AesInPlace.AesEncrypt` | librist/contrib/aes.c:940-1011 | The rounds on the 4x4 array compute the cipher of section 5.1 of FIPS 197. |
| `AesInPlace.AesDecrypt` | librist/contrib/aes.c:1013-1080 | The inverse rounds on the 4x4 array compute the inverse cipher of section 5.3 of FIPS 197. |
| `AesModes.AesInverts` | librist/contrib/aes.c:940-1080 | For the three key sizes the two directions of AES are a cipher and its inverse, which is all the modes need. |
| `BlockModes.CbcRoundTrip` | librist/contrib/aes.c:242-312 | Over any invertible block cipher, CBC decryption returns every message of whole blocks. |
| `BlockModes.CbcMacIsLastBlock` | librist/contrib/aes.c:265-288 | The CBC-MAC is the last block of the CBC encryption. |
| `BlockModes.CbcBlock` | librist/contrib/aes.c:242-263 | Block k of the output is the cipher on block k of the message added to the output block before it, the first to the initial value. |
| `BlockModes.IncrementAddsOne` | librist/contrib/aes.c:316-326 | On a counter of k bytes, 1 to 16, the increment is big-endian plus one modulo 256^k and leaves the rest of the block alone. |
| `BlockModes.CounterAdds` | librist/contrib/aes.c:316-351 | The k-th counter block is the first one plus k modulo 256^16. |
| `BlockModes.CtrBlockIs` | librist/contrib/aes.c:330-351 | Block k of the output, the last perhaps shorter, is block k of the message added to the cipher on the k-th counter block. |
| `BlockModes.CtrTwice` | librist/contrib/aes.c:330-357 | CTR applied twice is the identity for every length, including a partial last block. |
| `AesModes.AesEncryptCbc` | librist/contrib/aes.c:242-263 | Whole blocks are chained into the output, in place if the buffers coincide; any other length is refused and nothing is written. |
| `AesModes.AesDecryptCbc` | librist/contrib/aes.c:290-312 | The inverse of the above, with the same refusal. |
| `AesModes.AesEncryptCbcMac` | librist/contrib/aes.c:265-288 | Of the chain only the last block is returned. |
| `AesModes.IncrementIv` | librist/contrib/aes.c:316-326 | The in-place loop with its early exit is the counter increment; a counter size below one changes nothing. |
| `AesModes.AesEncryptCtr` | librist/contrib/aes.c:330-357 | The input is encrypted into the output, copied first unless the two buffers are one, a last part block by the leading bytes of its key stream; the rest of the output stays. |
| `Ccm.FormattedIsBlocks` | librist/contrib/aes.c:503-541 | The formatted buffer is always a nonempty number of whole blocks. |
| `Ccm.FormattingExample` | librist/contrib/aes.c:496-545 | The formatted input and the first counter block of the first example in appendix C of SP 800-38C. |
| `Ccm.FormattingInjective` | librist/contrib/aes.c:503-545 | Two inputs of permitted lengths are formatted alike only if payload, associated data, nonce and MAC length are all the same. |
| `Ccm.CountersCoincide` | librist/contrib/aes.c:411-417 | The counter of the payload starts at that of the MAC if and only if the MAC has fifteen or sixteen bytes, hence among the permitted lengths at sixteen. |
| `Ccm.OpensSealed` | librist/contrib/aes.c:363-494 | Opening a sealed payload returns it and the MAC matches, for every nonce of up to fifteen and MAC of up to sixteen bytes. |
| `Ccm.AuthenticIffSealed` | librist/contrib/aes.c:427-494 | A ciphertext passes the MAC check if and only if it is the sealing of what it opens to. |
| `AesModes.AesEncryptCcm` | librist/contrib/aes.c:363-423 | Returns FALSE exactly for a MAC length, nonce length, associated-data length or key size that is not permitted or when memory runs out; otherwise the output is the sealed payload and its length is returned. |
| `AesModes.AesDecryptCcm` | librist/contrib/aes.c:427-494 | Returns FALSE exactly when there is no payload, the key size is not permitted or memory runs out, and for no other MAC or nonce length; a payload whose MAC does not match is wiped, and without a flag to report to the MAC is not looked at. |
| `ReceiveRing.EnqueueKeepsValid` | librist/src/rist-common.c:526-724 | Every enqueue keeps the ring invariant, whatever the clock, the allocator and the packet. |
| `ReceiveRing.OutputKeepsValid` | librist/src/rist-common.c:856-1049 | Every output pass keeps it, whatever the clock reads during the pass. |
| `ReceiveRing.ReleasedInTime` | librist/src/rist-common.c:867-940 | A packet of ordinary age is not released before its target time unless the buffer is being rescaled, a due one is not kept waiting, and only one older than twice the buffer is dropped. |
| `ReceiveRing.WaitsOutTheBuffer` | librist/src/rist-common.c:867-940 | A packet just stored waits out the buffer: a pass whose clock stays below its packet time plus the buffer, and does not find it older than 1.1 times the buffer, leaves it in its slot. |
| `ReceiveRing.HandsOverYoung` | librist/src/rist-common.c:905-925 | Whatever a pass hands over was at most twice the buffer old when the pass looked at it. |
| `ReceiveRing.HolesAreFree` | librist/src/rist-common.c:866-886 | Every slot from the read index up to the packet the scan stops at, going round, is empty. |
| `ReceiveRing.Run` | librist/src/rist-common.c:526-1049 | Every state reachable by packets, output passes, reports and changes of the flow id satisfies the ring invariant. |
| `ReceiveRing.EveryPacketAccountedFor` | librist/src/rist-common.c:541-698 | In every reachable state each accepted packet is exactly one of: waiting in the slot of its sequence number, delivered, discarded. |
| `ReceiveRing.DeliveredAtMostOnce` | librist/src/rist-common.c:960-980 | No accepted packet is delivered twice, and what is delivered is the accepted packet. |
| `ReceiveRing.CounterCoversQueue` | librist/src/rist-common.c:671-698 | The byte counter equals the occupied bytes plus the bytes of packets replaced since the last reset, so it is zero only when the ring is empty. |
| `ReceiveRing.SlotBeforeReaderFree` | librist/src/rist-common.c:654-670 | The slot just before the read index is free in every reachable state. |
| `ReceiveRing.GapsAreAnnounced` | librist/src/rist-common.c:945-967 | Every delivered block either opens a stream, or is flagged as a discontinuity, or carries the number right after its predecessor. |
| `ReceiveRing.SecondCopyIsRefused` | librist/src/rist-common.c:671-680 | A second copy of a packet just stored, with the same number and source time, is refused and leaves everything as it is, unless it counts as late by then. |
| `ReceiveRing.LatePacketIsRefused` | librist/src/rist-common.c:630-650 | A packet out of order and older than 1.1 times the buffer is refused; ring, reader and log stay. |
| `ReceiveRing.EndsStreamExactly` | librist/src/rist-common.c:632-670 | A packet ends a live stream exactly by being one too many of those refused: more than five late ones for each stored, or more than a hundred that met a full ring. |
| `ReceiveRing.IterationEndsStream` | librist/src/rist-common.c:866-1045 | The output loop ends a live stream exactly if it finds no packet, or drops the hundred-and-first in a row, or drops the last one when nothing was handed over for longer than the buffer. |
| `ReceiveRing.DuePassDeliversAll` | librist/src/rist-common.c:856-1049 | A pass during which every waiting packet is due and none too old delivers all of them and leaves the ring empty. |
| `ReceiveRing.ExpectedOnlyWhenEven` | librist/src/rist-common.c:630 | The mask leaves out the lowest bit, so the number after the last one found is the expected one exactly if it is even. |
| `ReceiveOrder.ReaderInStep` | librist/src/rist-common.c:856-1049 | In every run of 16-bit numbers the reader stands just after the last block handed over, or at the packet that opened the stream, unless packets were dropped since. |
| `ReceiveOrder.GoesBackExactly` | librist/src/rist-common.c:866-980 | With the reader in step, the next block handed over has a number behind the last one exactly if nothing waits in the half of the ring ahead of the reader; it then carries the discontinuity flag. |
| `ReceiveOrder.FlagExactly` | librist/src/rist-common.c:945-962 | A block handed over is flagged as a discontinuity exactly if the slot the reader stood at was empty or its number is not the next one; with the reader in step, exactly if its number is not the next one. |
| `ReceiveOrder.FlagsTellGaps` | librist/src/rist-common.c:945-967 | Over every run in which no packet is dropped as too old, whatever is lost, duplicated or reordered on the way, every block that opens no stream is flagged if and only if its number is not the one after its predecessor's. |
| `ReceiveOrder.FirstIsOpener` | librist/src/rist-common.c:541-560 | Until the first block of a stream is handed over, the number expected is that of the packet that opened the stream, so by the above that block is flagged exactly if it is another one. |
| `ReceiveOrder.PassedPacketIsHandedOver` | librist/src/rist-common.c:623-698 | In an emptied ring a packet is stored exactly unless it is out of order and older than 1.1 times the buffer, or is the one just before the reader; the next block handed over is that packet, and goes back exactly if it lies in the half behind the reader. |
| `ReceiveOrder.SteadyRunIsInOrder` | librist/src/rist-common.c:526-1049 | Over every run in which no packet is stored behind the reader of a live stream and none is dropped for its age, the blocks are handed over in the order of their numbers. |
| `ReceiveOrder.OutOfOrderReached` | librist/src/rist-common.c:623-698 | Two packets and two passes from a fresh flow hand over number 10 after number 11. |
| `ReceiveFlow.ReceiverFlow.EmptyReceiverQueue` | librist/src/flow.c:46-64 | The walk round the ring frees every slot and takes exactly their bytes off the counter. |
| `ReceiveFlow.ReceiverFlow.InsertQueuePacket` | librist/src/rist-common.c:429-447 | The slot holds the packet with its target time, or nothing when memory ran out. |
| `ReceiveFlow.ReceiverFlow.StoreFirst` | librist/src/rist-common.c:541-582 | The ring's part of storing the first packet after a reset: the ring is emptied and the read index moves to the packet. |
| `ReceiveFlow.ReceiverFlow.ReceiverEnqueue` | librist/src/rist-common.c:526-698 | The ring's part of the in-place routine changes ring, cursor and counters and answers exactly as the step function says; the missing queue's part is in ReceivePath.RistFlow.ReceiverEnqueue. |
| `ReceiveFlow.ReceiverFlow.FindPacket` | librist/src/rist-common.c:866-886 | Returns the first occupied slot going round from the read index and the number of free slots before it. |
| `ReceiveFlow.ReceiverFlow.OutputIteration` | librist/src/rist-common.c:865-1046 | One iteration of the output loop is one step of the specification. |
| `ReceiveFlow.ReceiverFlow.ReceiverOutput` | librist/src/rist-common.c:856-1049 | The whole pass, which ends for every clock. |
| `MissingQueue.RoomExactly` | librist/src/rist-common.c:1262-1284 | A request finds a free place in the array of 200 if and only if one was left, a group can be sent, or its number has the upper half of the first one. |
| `MissingQueue.PassFitsExactly` | librist/src/rist-common.c:1171-1316 | A pass writes past the array if and only if some entry is asked for when it is full, nobody is there to send to, and the entry opens a new upper half. |
| `MissingQueue.RunStaysInside` | librist/src/rist-common.c:1171-1316 | In every run with 16-bit numbers, or with a peer at each pass, no pass writes past the array, whatever earlier ones left there. |
| `MissingQueue.StepOverruns` | librist/src/rist-common.c:1262-1289 | The single step that takes 200 pending requests to 201. |
| `MissingQueue.OverrunReached` | librist/src/rist-common.c:1262-1289 | Otherwise one gap over 201 numbers and one pass suffice to write past the end. |
| `MissingQueue.PassKeepsAccounting` | librist/src/rist-common.c:1171-1316 | A NACK pass keeps the counter equal to the number of queued entries asked for at least once. |
| `MissingQueue.PassRespectsRetries` | librist/src/rist-common.c:739-789 | No entry is asked for more often than its peer allows. |
| `MissingQueue.EveryRequestIsSent` | librist/src/rist-common.c:1171-1316 | With a peer to send to, every request of a pass is sent, in queue order, after those left over, and nothing else is; those left over are lost exactly when they had filled the array and the first number handled has the upper half of the first entry. |
| `RequestHistory.RequestsAreSpaced` | librist/src/rist-common.c:765-789 | Over every run with sums of times below 2^64, each queued entry has been asked for as often as it counts, first no sooner than a round trip after it was marked, and any two successive requests lie at least 1.1 times the bounded round-trip time of its peer apart. |
| `RequestHistory.AskedExactlyWhenDue` | librist/src/rist-common.c:726-789 | The next pass asks for an entry if and only if the packet is still missing, its peer neither has recovery off nor is bloated, it has been asked for fewer times than allowed, it is no older than 1.1 times the buffer, and the last request lies that far back. |
| `RequestHistory.GivenUpExactly` | librist/src/rist-common.c:726-762 | The pass gives an entry up if and only if the packet has arrived, recovery is off, or it is too old or asked for as often as allowed; for a bloated peer, exactly as its congestion control says. |
| `RequestHistory.RequestsAre` | librist/src/rist-common.c:1171-1316 | The numbers requested by a pass are exactly those of the entries so decided. |
| `RequestHistory.RttIsBounded` | librist/src/rist-common.c:766-771 | The round-trip time used is the measured one, kept within the limits of the peer. |
| `RequestHistory.GapTimesSpread` | librist/src/rist-common.c:465-494 | The times of a gap go up in equal steps from that of the packet before it to that of the packet after it; one that does not lie within the buffer before now is replaced by now. |
| `MissingQueue.ShortGapIsExact` | librist/src/rist-common.c:449-494 | With 16-bit numbers a number is marked exactly if the jump is at most 32768, no guard is set, and it lies strictly between the last number found and the current one, going round; or, for a jump of zero, if it is any other number. |
| `MissingQueue.ShortGapInOrder` | librist/src/rist-common.c:469-493 | The marked numbers are in order and distinct. |
| `MissingQueue.ShortGapSize` | librist/src/rist-common.c:487-488 | The loop always ends before its guard on the ring size. |
| `MissingQueue.RepeatMarksEverything` | librist/src/rist-common.c:460-464 | The bound on the jump lets a jump of zero through, which marks 65535 numbers; ReceivePath.FloodReached shows the packets that cause it. |
| `MissingQueue.LongGapSize` | librist/src/rist-common.c:465-493 | In a flow of 32-bit numbers fed with 16-bit ones, a gap across the wrap marks as many numbers as the ring has slots. |
| `MissingQueue.Run` | librist/src/rist-common.c:1171-1316 | In every reachable state: counter equal to the entries asked for, no entry over its limit, every number within the flow's width. |
| `MissingList.MissingFlow.ReceiverMissing` | librist/src/flow.c:15-44 | The new entry, its due time kept within the recovery buffer, is appended and the tail points to it. |
| `MissingList.MissingFlow.FlushMissing` | librist/src/flow.c:66-78 | The queue and its counter are empty; the tail pointer is left as it was. |
| `MissingList.MissingFlow.ReceiverMarkMissing` | librist/src/rist-common.c:460-494 | Given the times of the two packets, the loop appends exactly the entries of the gap, for both widths of numbers; ReceivePath.RistFlow.MarkMissing reads the times. |
| `MissingList.MissingFlow.ProcessNack` | librist/src/rist-common.c:726-797 | Removes, puts off or makes the request as its retries, age and next time say; a first request is counted. |
| `MissingList.MissingFlow.SendNackGroup` | librist/src/rist-common.c:1093-1168 | Pending requests leave as one group; without peers they stay pending. |
| `MissingList.MissingFlow.Unlink` | librist/src/rist-common.c:1296-1303 | The node leaves the list, the order of the others stays, and the tail is again the last node. |
| `MissingList.MissingFlow.ReceiverNackOutput` | librist/src/rist-common.c:1171-1316 | The walk over the linked list does to queue, counter and requests what the pass on sequences says, whenever that pass stays inside the array. |
| `ReceivePath.Run` | librist/src/rist-common.c:526-724 | Ring and queue keep their invariants together in every run, and the last number found always has a slot of its own. |
| `ReceivePath.JumpMarksPassedOver` | librist/src/rist-common.c:700-721 | A stored packet that jumps ahead queues exactly the numbers between the last one found and its own, all others when it repeats the last one, and nothing when a guard is set. |
| `ReceivePath.NothingToMark` | librist/src/rist-common.c:690-724 | A retransmission, a packet out of order, the number after the last one and a packet there is no memory for mark nothing as missing. |
| `ReceivePath.LastFound` | librist/src/rist-common.c:690-724 | A stored packet becomes the last one found, unless it is a retransmission or out of order. |
| `ReceivePath.RepeatFloods` | librist/src/rist-common.c:671-710 | A packet stored under the number last found queues all 65535 others. |
| `ReceivePath.FloodReached` | librist/src/rist-common.c:541-710 | Two packets of number 0 with different source times get there from an empty flow. |
| `ReceivePath.PassLeavesHoles` | librist/src/rist-common.c:1189-1236 | What a NACK pass leaves queued and what it asks for are numbers whose slot in the ring is empty. |
| `ReceivePath.RistFlow.MarkMissing` | librist/src/rist-common.c:449-459 | The gap is spread between the times of the two packets, read from slots of the ring, or from now on where the earlier slot is empty. |
| `ReceivePath.RistFlow.ReceiverEnqueue` | librist/src/rist-common.c:526-724 | The whole routine: what happens to ring and queue and the answer are those of the composed step, with the flush on a restart and the marking after a jump. |
| `ReceivePath.RistFlow.ReceiverRecvData` | librist/src/rist-common.c:1998-2013 | A packet of another flow id from another source first ends the stream, then is enqueued as the first of a new one. |
| `ReceivePath.RistFlow.ReceiverNackOutput` | librist/src/rist-common.c:1171-1316 | The pass looks its numbers up in the flow's own ring. |
| `NullPackets.MarkedBitsDescribe` | librist/src/mpegts.c:28-36 | After marking, bit 6-i is set exactly when the i-th packet is null, and bit 7 exactly for packets of 204 bytes. |
| `NullPackets.RebuiltStandardises` | librist/src/mpegts.c:76-89 | Rebuilding puts the standard null packet where each null was and every other packet back in its place. |
| `NullPackets.SuppressThenExpand` | librist/src/mpegts.c:12-92 | For every payload of any length and content: the receiver gets it back with each null replaced in place by the standard null packet, or unchanged when it is not one to seven packets starting with a sync byte. |
| `NullPackets.CopiesStayInside` | librist/src/mpegts.c:60-79 | For up to seven packets, what expansion copies lies within the payload if and only if no bit names a packet past the last one. |
| `NullPackets.LowestBitReadsPastEnd` | librist/src/mpegts.c:60-79 | One packet of 188 bytes under bits 0x01 is such a case: two packets would be copied out of it. |
| `NullPackets.ReadsPayloadOnly` | librist/src/mpegts.c:76-89 | When no bit does, bytes behind the payload make no difference to the expansion. |
| `NullPacketBuffers.SuppressNullPackets` | librist/src/mpegts.c:12-58 | Returns -1 exactly for ineligible payloads, otherwise the number of nulls; the output and bits are the compressed payload. The presence flag is set even when the sync byte is missing. |
| `NullPacketBuffers.ExpandNullPackets` | librist/src/mpegts.c:60-92 | For any bits whose reads and writes stay within the buffers: when one is set, the result is rebuilt from the buffer, and it is the expansion of the payload when no bit names a packet past the last; otherwise the payload stands. |
| `NullPacketBuffers.SentIsExpandable` | librist/src/mpegts.c:60-75 | What suppression produces always meets the terms of expansion. |
| `NullPackets.NinePackets` | librist/src/mpegts.c:60-76 | A payload of two packets under seven null bits makes nine, more than the shift of the source allows for. |
| `ProgramSelection.FilterConcat` | librist/src/program-selection.c:853-928 | The filter is a fold: filtering two aligned chunks in turn, the cache carried over, equals filtering their concatenation. |
| `ProgramSelection.EachPacketByRule` | librist/src/program-selection.c:883-926 | Each packet is left untouched or becomes the standard null packet exactly by the precedence rule, with the cache as it stands once the packet itself was read. |
| `ProgramSelection.MandatoryUntouched` | librist/src/program-selection.c:430-468 | A packet below PID 0x20, on a known program-map PID or on a known entitlement PID is never altered. |
| `PsiSections.PatBack` | librist/src/program-selection.c:541-625 | For every list of program numbers and PIDs that fits one packet, written down by an independent encoder with any adaptation field and pointer, reading the packet with a new version gives exactly the pairs with a nonzero number, in order. |
| `PsiSections.CatBack` | librist/src/program-selection.c:649-729 | For every list of descriptors that fits one packet, reading it with a new version gives the PIDs of the first sixteen conditional access descriptors, in order. |
| `PsiSections.MapBack` | librist/src/program-selection.c:750-851 | For every clock PID, program descriptors and list of streams that fit one packet, reading the map of a known program with a new version gives that clock PID and the PIDs of the streams found. |
| `PsiSections.NoSectionStarts` | librist/src/program-selection.c:541-560 | A packet that does not start a section tells the filter nothing. |
| `PsiSections.BelongsToFirst` | librist/src/program-selection.c:366-393 | A PID belongs to a program number exactly if it is the clock PID or a stream of the first program of that number. |
| `PsiSections.RequestedPidStays` | librist/src/program-selection.c:424-524 | A requested PID always stays, and everything does while no selection is active. |
| `PsiSections.BlockedPidGoes` | librist/src/program-selection.c:424-524 | A blocked PID goes, unless it is mandatory or requested. |
| `PsiSections.RequestedProgramsStay` | librist/src/program-selection.c:424-524 | With requested programs, of the PIDs on no list exactly the mandatory ones and those of these programs stay. |
| `PsiSections.BlockedProgramGoes` | librist/src/program-selection.c:424-524 | A PID of a blocked program goes, unless it is mandatory, requested, or programs are requested. |
| `PsiSections.UnmentionedStays` | librist/src/program-selection.c:424-524 | With no programs requested, a PID that no list mentions stays exactly if no PIDs are requested or it is mandatory. |
| `PsiSections.ProgramIsSelected` | librist/src/program-selection.c:853-928 | A receiver that asks for one program and is sent its two tables gets them, the reserved PIDs, its clock and the streams found, and null packets in place of everything else. |
| `ProgramSelection.MapPidsStay` | librist/src/program-selection.c:788-850 | Reading a program map does not change which PIDs are program-map PIDs. |
| `ProgramSelection.ProgramLimitNeverReached` | librist/src/program-selection.c:598-619 | The limit of 64 programs never truncates a section of one packet. |
| `ProgramSelection.StreamLimitNeverReached` | librist/src/program-selection.c:829-845 | The limit of 32 streams never truncates a section of one packet. |
| `ProgramSelection.EmmLimitKeepsFirst` | librist/src/program-selection.c:703-723 | The limit of 16 entitlement PIDs keeps the first sixteen. |
| `ProgramSelection.ShortLastStreamMissed` | librist/src/program-selection.c:826-845 | Of streams that fill the section up to its check sum the loop finds all but the last, and the last exactly when it has at least three bytes of descriptors. |
| `ProgramSelection.MapReadInFull` | librist/src/program-selection.c:818-845 | A program map is read in full if and only if it lists no stream or its last stream has at least three bytes of descriptors. |
| `ProgramSelection.LoneStreamLost` | librist/src/program-selection.c:826-845 | A map packet with one stream without descriptors: the stream is lost, and its packets are dropped although its program is requested. |
| `ProgramSelection.FilterSuppressExpand` | librist/src/program-selection.c:853-928 | For one to seven packets whose nulls are standard, expanding the compressed filtered payload gives back the filtered payload. |
| `PidFilter.Listed` | librist/src/program-selection.c:465-481 | The loop to the terminating zero decides membership in the list. |
| `PidFilter.PidBelongsToProgram` | librist/src/program-selection.c:366-393 | The first program of that number decides, by its clock PID or its streams. |
| `PidFilter.PsiCache.ParsePatPacket` | librist/src/program-selection.c:541-625 | The cache follows a program association section in force with a new version. |
| `PidFilter.PsiCache.ParseCatPacket` | librist/src/program-selection.c:649-729 | The cache follows a conditional access section in force with a new version. |
| `PidFilter.PsiCache.ParsePmtPacket` | librist/src/program-selection.c:750-851 | The program of that PID and number follows a program map section in force with a new version. |
| `PidFilter.PsiCache.ShouldIncludePid` | librist/src/program-selection.c:424-524 | The cascade of tests decides the declarative rule. |
| `PidFilter.PsiCache.FilterTransportStreamPids` | librist/src/program-selection.c:853-928 | The buffer rewritten in place and the cache are those of the fold. |
| `FullStreamRequest.BestIsLowest` | librist/src/rist-common.c:4794-4811 | No eligible agent has a lower round-trip time than the one chosen. |
| `FullStreamRequest.LiveAgentIsPreferred` | librist/src/rist-common.c:4794-4811 | While some eligible agent is alive every request of a cycle goes to a live one and none alive is faster; otherwise to a dead one and none is faster. |
| `FullStreamRequest.SatelliteIsLast` | librist/src/rist-common.c:4812-4825 | The satellite is the last data peer with a flow and another weight; there is one whenever there is such a peer. |
| `FullStreamRequest.Run` | librist/src/rist-common.c:4742-5016 | In every reachable state the request is active if and only if the last request sent was Enable, and so was every one since the last change. |
| `FullStreamRequest.CycleKeepsSound` | librist/src/rist-common.c:4911-5016 | Every cycle keeps that, whatever peers, clock and send results it meets. |
| `FullStreamRequest.DeadBand` | librist/src/rist-common.c:4840-4890 | With a satellite peer neither failing nor healthy the state does not change. |
| `FullStreamRequest.Switches` | librist/src/rist-common.c:4840-4990 | Exactly when a cycle switches the request on, and exactly when it switches it off. |
| `FullStreamRequest.RepeatsExactly` | librist/src/rist-common.c:4971-5016 | A cycle that does not switch repeats Enable every thirty seconds while the satellite fails, Disable from five to thirty seconds after the last one, and sends nothing else. |
| `FullStreamRequest.RequestsNameFlow` | librist/src/rist-common.c:4933-5010 | Every request names the flow of the satellite, and without a satellite that of the agent it goes to, which is not zero. |
| `FullStreamRequest.OncePerSecond` | librist/src/rist-common.c:4742-4754 | The check runs at most once a second. |
| `FullStreamRequest.ThresholdsInTicks` | librist/src/rist-common.c:4856-4885 | A live satellite fails from 2001 milliseconds without a packet or of 501 milliseconds of round-trip time on, and is healthy below 1000 and 200. |
| `FullStreamRequest.LastRequestDecides` | librist/src/rist-common.c:2371-2425 | Whatever arrives at an agent, a peer is on its list exactly if the last request accepted from it was Enable; requests that are short, misnamed, unauthenticated or met on the receiving side count for nothing. |
| `FullStreamRequest.Agreement` | librist/src/rist-common.c:2371-2425 | Over a channel to one agent that loses requests but keeps their order, among any other arrivals, the agent's list agrees with the receiver's state exactly if the last request that reached it asked for that state, and so whenever it was sent since the last change. |
| `FullStreamRequest.UnreachedAgent` | librist/src/rist-common.c:2371-2425 | An agent that no request reaches keeps its list as it was, whatever else arrives. |
| `FullStreamRequest.AllAgree` | librist/src/rist-common.c:4794-4990 | With nothing lost, the lists of all agents ever asked agree with the receiver if and only if the last request to each of them asked for the state the receiver is in. |
| `FullStreamRequest.AllAgreeOnOneAgent` | librist/src/rist-common.c:4794-4990 | If every cycle that has an agent to choose chooses the same one, and nothing is lost, the last request to each agent asked for the state the receiver is in, and all lists agree with it. |
| `FullStreamRequest.SupersededAgentKeepsServing` | librist/src/rist-common.c:4794-4990 | It need not be so: two cycles after which one agent still lists the receiver and the request is off. |
| `FsrMonitor.SurveyPeers` | librist/src/rist-common.c:4794-4838 | One pass over the peers finds the satellite, the recovery peers and the two candidate agents. |
| `FsrMonitor.ProtocolLoop.Turn` | librist/src/rist-common.c:4742-5016 | The loop body does what one cycle of the specification does. |
| `PeerTree.PeerContext.PeerAppend` | librist/src/rist-private.h:704-748 | The new peer, which may be its own data side, is last in the list of all peers and last among its parent's children; everything else stays and all lists are well formed. |
| `PeerTree.PeerContext.TakeUpConnection` | librist/src/rist-common.c:2982-3001 | A connection joins the sender's array before it joins the lists, and all is well formed once both are done. |
| `PeerTree.PeerContext.CreateChild` | librist/src/rist-common.c:2903-3001 | A listening peer is given a child that is its own data side, or has that of its parent when the parent sends to a group; the child ends up in the lists and, on the sending side, in the sender's array. |
| `PeerLists.Unchain` | librist/src/rist-common.c:3940-3951 | Taking a peer out of the doubly linked list leaves the list of the others. |
| `PeerTree.PeerContext.PeerRemoveChild` | librist/src/rist-common.c:3926-3938 | Taking a childless peer from its parent leaves every list of children right. |
| `PeerTree.PeerContext.ClearReferences` | librist/src/rist-common.c:4160-4168 | No peer refers to the removed one as its data or RTCP side any more. |
| `PeerLists.RemoveFromArray` | librist/src/rist-common.c:3954-3979 | Swapping with the last entry and shrinking removes exactly that peer. |
| `PeerLists.NobodyBelow` | librist/src/rist-common.c:4152-4158 | When the loop over children ends nobody is left below the peer. |
| `PeerLists.PrunedTwice` | librist/src/rist-common.c:4152-4158 | Removals compose: what has left is the union, and the survivors keep their order. |
| `PeerLists.PlaceAfterRemoval` | librist/src/rist-common.c:4270-4271 | The peer's place among the survivors is the number of survivors before it, so the returned next is the survivor that followed it. |
| `PeerTree.PeerContext.RistPeerRemove` | librist/src/rist-common.c:4125-4280 | Removing a peer removes exactly its subtree: the survivors keep their order, children, flows and references to each other, no survivor, sender array, flow array or out-of-band pointer refers to a removed peer, each removed peer is freed once, the parent stops being authenticated exactly if it has no child left, and next is the survivor that followed. |
| `PeerTree.PeerContext.TimeoutCheck` | librist/src/rist-common.c:3728-3775 | The walk that notes next before it looks at a peer removes exactly the peers with a parent that have been dead for more than five seconds, misses nobody, and marks as dead those that have lapsed; it is stated for trees in which only peers without parent have children. |
| `PeerLists.NotedNextSurvives` | librist/src/rist-common.c:3732-3768 | The peer noted as next survives a removal exactly if it is not below the removed one. |
| `PeerLists.FlatWith` | librist/src/rist-private.h:704-748 | Only peers without parent have children as long as new peers are given to such parents only, |
| `PeerLists.FlatPruned` | librist/src/rist-common.c:4125-4280 | and whatever is removed. |
| `PeerTree.PeerContext.SenderPeerAppend` | librist/src/rist-common.c:2540-2546 | A peer of the lists joins the end of the sender's array; everything else stays well formed. |
| `PeerTree.PeerContext.AssociateFlow` | librist/src/flow.c:244-338 | A peer without flow is given the oldest flow of the announced id, or that of its parent in the simple profile, or else a new flow that it opens; it joins the array exactly if no peer there has its id and flow id, and fails exactly without a parent in the simple profile or without memory for a new flow. |
| `PeerTree.PeerContext.DeleteFlow` | librist/src/flow.c:80-166 | The flow and its array are gone, no peer belongs to it, and of the peers of other flows at most those lose theirs that are sides of its members; outside the simple profile all is well formed afterwards exactly if no member of another flow's array is such a side. |
| `PeerTree.PeerContext.LeaveFlow` | librist/src/rist-common.c:1832-1851 | A peer that announces another flow leaves the array of its old one, which keeps its other peers; the flow is deleted when it was the only entry. |
| `PeerTree.PeerContext.RecvOobData` | librist/src/rist-common.c:2021-2037 | The peer remembered for messages outside the stream is replaced only when there is none or it is dead, and is always a peer of the context. |
| `PeerTree.PeerContext.DestroyPeers` | librist/src/rist-common.c:4463-4473 | The destroy loop that follows next frees every peer exactly once although children vanish under it. |
| `PeerTree.PeerContext.SenderDestroyLocal` | librist/src/rist-common.c:5107-5117 | The loop on the first entry of the sender's array ends, and with the loop after it every peer has been freed exactly once. |

## Left out

- Sockets, event loop, threads, locks, logging, pacing sleeps and `rist_start`/`rist_destroy`: steps are sequential and their outcomes are inputs.
- Statistics, except the counters that decide a branch.
- The copy of the CRC kept in the parsed marker, and the periodic status report of the two marker programs.
- The datagram with fewer than seven packets that the producer flushes when it shuts down.
- `MarkerMultiplexer.CountTsPackets`: counters wrap at 16 bits as in the source, but the lengths of buffers are unbounded integers, not `size_t`.
- Blocks of the marker link whose payloads do not have consecutive RTP sequence numbers, and sources with packets on the marker PID: the end-to-end theorems are about well-formed sources, the session invariants about all input.
- `AesKeySchedule.Expand`: the words past the last round key, which the source leaves unset and never reads, are zero.
- `AesInPlace.AesEncrypt`: the rounds the source writes out one after another are a loop and a helper here.
- `AesModes.AesDecryptCcm`: MACs of more than sixteen and nonces of more than fifteen bytes, which do not fit the local buffers of the source.
- `Sha256.Sha256Ctx.Final`: builds the last block in a local buffer rather than in the context's own.
- Other digests of the PBKDF2 template, and the parallel loop over blocks.
- `ReceiveRing.Run`: packet time from source time, clock-offset and interpolation heuristics are inputs; the queue lengths are the two the source sets, 65536 and 524288, so masking is a remainder; payloads are nonempty.
- `ReceivePath.Run`: numbers are 16 bits wide, as the packet header carries them.
- The FIFO between output and application, and failure to allocate an output block: delivery is the hand-over to the callback.
- `MissingList.MissingFlow.ReceiverNackOutput`: a pass that writes past the array; `MissingQueue.PassFitsExactly` says which those are.
- Which peer a NACK group goes to, and the NACK encoding.
- Log-only counts of the full-stream request logic, and the copy of its own list that the receiver keeps when it sends.
- Failure to allocate in the list of requesting peers, and its clearing when a peer is removed.
- `ProgramSelection.EachPacketByRule`: a section whose header would start in the last two bytes of a packet, or whose adaptation field or pointer leads outside it, counts as no section; the source reads past the packet.
- `NullPacketBuffers.SuppressNullPackets`: the buffer holds at least one byte, which the source looks at whatever the length.
- `NullPacketBuffers.ExpandNullPackets`: expansions that read or write past the buffers themselves, and more than seven packets.
- Parsing the JSON selection: lists start as arrays ending at the first zero.
- `PeerTree.PeerContext.PeerAppend`: the total weight and the count of live children; the pair of data and RTCP peers that `librist/src/rist.c:1046-1058` links to each other before either is in the list.
- `PeerTree.PeerContext.CreateChild`: addresses, keys and authentication, and a connection that the application turns down, after which no peer is left.
- `PeerTree.PeerContext.TimeoutCheck`: what a lapsed peer does besides becoming dead, such as announcing it to the application.
- `RequestHistory.RequestsAreSpaced`: sums of times that leave 64 bits.
- Sections spread over several packets, which the source does not put together.
- `ReceiveOrder.GoesBackExactly`: where the reader stands relative to the last block after packets have been dropped.
- `PeerTree.PeerContext.RistPeerRemove`: event handlers, keys, sockets and weights are not part of the record of a peer; freeing is recorded in a ghost sequence.
- `PeerTree.PeerContext.DeleteFlow`: the threads, queues and statistics of the flow.
- The Python gateway and interfaces, the watchdog, preview and exporter programs, URL parsing and SRP.

# Verified core of a dual-mode WireGuard/AmneziaWG implementation

A Dafny model of the algorithms and state machines behind a user-space WireGuard device with obfuscation, and behind
the layer that negotiates between native and cloaked connectivity. Code that changes things step by step is modelled
by classes, arrays and loops; each such method is proved against a specification function or a stated property.
`dafny verify dfyconfig.toml` checks everything.

| files | what they model |
|---|---|
| `Basics` | optional values, bytes and numbers in bytes |
| `AddressBits`, `AddressBytes`, `AllowedIps` | the routing trie: a path-compressed binary trie changed in place, with a list threaded through it for each peer, held to a plain map read by longest prefix |
| `Checksum` | the unrolled 64-bit sum with carry, held to the 16-bit one's-complement sum of RFC 1071 |
| `Gso`, `GroLedger`, `Gro`, `GroBatch` | splitting large offloaded packets, coalescing received ones, and that the two undo each other |
| `Replay` | the anti-replay ring of RFC 6479, held to the set of all accepted counters |
| `HandshakeStates`, `Handshakes`, `KeypairLife` | handshakes, key pairs with their replay filters, and the index table of a device with many peers and many workers, as a state machine; what becomes of each key pair in it |
| `Initiations` | initiations that several workers check and store at once |
| `Nonce` | send nonces under any interleaving of senders |
| `Noise`, `NoiseIk`, `NoiseCells`, `NoiseDevice`, `NoiseControl` | the two handshakes, held to the token interpreter of the Noise Protocol Framework, revision 34 |
| `Bind` | coalescing datagrams before a batched send, splitting them in place after a batched receive |
| `Ratelimiter` | the token bucket for each address, with garbage collection and overlapping calls |
| `Text`, `Uapi`, `Codec`, `Framing`, `Profile`, `Classify`, `Cloaked` | control messages and their frames; obfuscation settings as configuration text, as a control message and as a packet classifier |
| `NativeFlow` | X, any number of control connections of Ys, and the device X shares among them |

Conventions. What happens while one lock is held is one atomic step. A function that takes a lock twice is two steps
with anything in between: the check and the store of an initiation or a response, the two halves of stopping a peer, the lookup and the
update of a rate limiter's bucket. Random numbers, clocks, the outcome of operating-system calls and the authenticity
of packets are parameters. Cryptography is symbolic: Diffie-Hellman is commutative, a sealed box opens under its own
key and associated data only, and a key stream is an arbitrary function of key, nonce and position. Ghost state
(`Graph`, `Ledger`, `History` and the logs in the state machines) only records what the program does. Integer widths
are written out where they matter: sequence numbers modulo 2^32, 16-bit lengths, the 64-bit accumulator and the 64-bit
nonce counter.

## Results that qualify what one might expect

- Nonces: the counter never wraps exactly if there are at most 2^13 senders; no nonce is used twice or after expiry
  exactly if there are at most 2^13 + 1 (`Nonce.NeverWraps`, `Nonce.NeverReuses`).
- Responses: the state is checked under one lock and stored under another. A response that arrives twice and is handled
  by two workers yields two key pairs with the same secrets, the second without an index (`Handshakes.TwoWorkers`).
  In every run the index table stays exact and no handshake yields two key pairs, even if a session is begun at any
  moment, exactly if every store finds the handshake with an index and the session not yet used
  (`Handshakes.SteadyIffInTime`).
- Initiations: they too are checked and stored under two locks. They are consumed in order and at the rate allowed
  exactly if at each store the check would pass again (`Initiations.OrderlyIff`); none is consumed twice exactly if at no
  moment two workers have passed the check with the same time stamp (`Initiations.NeverTwiceIff`), as two workers with
  one initiation can (`Initiations.HandledTwice`).
- Stopping a peer: no index of it is left exactly if no session of it begins between the two halves
  (`Handshakes.FlushedIff`).
- Index table: it stays exact exactly if 0 is not drawn; when the random source fails, an initiation keeps it exact
  only if the handshake had no index, a response only if the junk value is 0 (`Handshakes.ZeroDrawn`,
  `Handshakes.InitiationDrawFails`, `Handshakes.ResponseDrawFails`).
- Rate limiter: calls that overlap can be allowed more than the rate. The bound holds with the gains of calls that act
  on what is no longer so (`Ratelimiter.OverlapBounded`); a step keeps the tokens of every address, but for the cost of
  a call that is allowed, exactly if what the call found still holds when it acts (`Ratelimiter.ConservedIff`); any
  number of first calls can be allowed at one moment (`Ratelimiter.AllAllowed`).
- Coalescing: the flags of coalesced TCP packets come back exactly if not the last of them pushes and the one in front
  came after it (`GroBatch.Batch.SplitBuffer`).
- Coalescing: a TCP packet with a wrong checksum whose item is dropped when another would go with it is written as it
  came, but without an offload header; every other buffer has one (`GroBatch.Batch.HandleGro`, `GroBatch.DroppedOne`).
  Nothing is dropped exactly if no packet, on its way through its flow, meets an item with one packet of a wrong checksum
  that it would go with (`GroBatch.NoneDroppedIff`), so surely if all TCP packets have right checksums
  (`GroBatch.NothingDropped`).
- Headers: of the range of all 2^32 headers only 0 is ever picked (`Uapi.PickedIff`).
- Rate limiter: of calls at one moment four are allowed, although the burst is called 5 (`Ratelimiter.FourAtOnce`).
- Datagram splitting: a segment size above the number of bytes received makes the one segment too long
  (`Bind.SegmentsExact`).
- Control messages: a reason of 2^16 bytes or more, a zone, or a missing address does not survive encoding
  (`Codec.RoundTrip`); a message whose frame exceeds 64 KiB can be sent but not received (`Framing.FrameRoundTrip`).
- Profiles: a line end inside an `i1` to `i5` description can set something on X that Y does not get
  (`Profile.LineEndInSpec`). X and Y agree exactly if the last line behind the nine settings that names one of them,
  before the first blank line or peer, says the value that the profile has (`Profile.Transfer`).
- Classification: all packets are delivered exactly if no headers clash, that is, if for no two kinds of packets that
  can be of the same size a nonce and two headers exist whose masked bytes agree where their places overlap
  (`Classify.DeliveredIff`). Headers whose places do not overlap always clash (`Classify.ApartClash`), and equal
  paddings never do (`Classify.ClearNoClash`).
- The message that refuses small paddings says they must be more than 12; the code accepts 12, and so does the model.

## Model

| member | source | states |
|---|---|---|
| `AddressBytes.CommonBitsAre` | device/allowedips.go:35-56 | leading zeros of the exclusive or of 32-bit words, or of the two halves of a 128-bit address, count the common leading bits |
| `AddressBytes.ChooseIs` | device/allowedips.go:69-71 | the shifted byte gives the bit behind the prefix |
| `AddressBytes.MaskSelf` | device/allowedips.go:73-78 | masking byte by byte in place clears exactly the bits behind the prefix |
| `AllowedIps.LongestMatchIs` | device/allowedips.go:191-211 | the reference: the longest stored prefix that contains the address, or nothing |
| `AllowedIps.DescentComplete` | device/allowedips.go:88-99 | every node that covers an address lies on the path of the descent |
| `AllowedIps.BestIsLongest` | device/allowedips.go:191-211 | the last peer seen on the way down is the longest match |
| `AllowedIps.PlacingAbsent` | device/allowedips.go:88-99 | where the placement ends without an exact hit, no node holds the prefix |
| `AllowedIps.BypassShape` | device/allowedips.go:226-257 | taking a node with one child out keeps bits, slots and back-pointers right |
| `AllowedIps.AboveShape` | device/allowedips.go:152-165 | hanging a node above another keeps bits, slots and back-pointers right |
| `AllowedIps.LeafShape` | device/allowedips.go:134-145 | hanging a node into an empty slot keeps bits, slots and back-pointers right |
| `AllowedIps.NodeHasEntry` | device/allowedips.go:226-257 | below every node there is an entry |
| `AllowedIps.NoEntriesNoNodes` | device/allowedips.go:226-257 | a table without entries has nil roots and no nodes |
| `AllowedIps.Table.Lookup` | device/allowedips.go:306-317 | lookup returns the peer of the longest stored prefix that contains the address |
| `AllowedIps.Table.NodePlacement` | device/allowedips.go:88-99 | finds the node of the prefix, or the lowest node above it |
| `AllowedIps.Table.Overwrite` | device/allowedips.go:116-122 | an exact hit changes hands: the old peer's list loses the node, the new one's gains it |
| `AllowedIps.Table.Split` | device/allowedips.go:166-189 | a branching node is put above two prefixes that part company |
| `AllowedIps.Table.Insert` | device/allowedips.go:101-189 | the map gets exactly the masked prefix, overwriting it if it is there, and the invariant is kept |
| `AllowedIps.Table.PruneUp` | device/allowedips.go:226-257 | a node without peer and with fewer than two children goes, and so does its parent if need be |
| `AllowedIps.Table.RemoveNode` | device/allowedips.go:226-257 | exactly the prefix of the node leaves the map |
| `AllowedIps.Table.Remove` | device/allowedips.go:259-278 | the prefix is removed exactly if the given peer owns it |
| `AllowedIps.Table.RemoveByPeer` | device/allowedips.go:280-289 | exactly the prefixes of the peer leave the map |
| `AllowedIps.Table.EntriesForPeer` | device/allowedips.go:213-224 | the prefixes handed to the callback are different ones of the peer, all of them unless the callback wants no more |
| `AllowedIps.Run` | device/allowedips.go:259-304 | after any sequence of operations the trie stores what the plain map would |
| `Checksum.NativeWord` | tun/checksum.go:9-84 | a word read in either byte order stands for the sum of its 16-bit words, swapped if little-endian |
| `Checksum.AddTracks` | tun/checksum.go:15-34 | an addition with carry keeps the sum, and the pending carry always fits |
| `Checksum.AddChain` | tun/checksum.go:15-34 | a chain of additions ended by adding the last carry never overflows |
| `Checksum.ChecksumNoFold` | tun/checksum.go:9-84 | the unfolded result represents initial value plus data, for every length and either byte order |
| `Checksum.FourFolds` | tun/checksum.go:86-93 | four folds take any 64-bit sum to 16 bits |
| `Checksum.ComputeChecksum` | tun/checksum.go:86-93 | the result is the one's-complement sum of initial value and data |
| `Checksum.PseudoHeaderChecksumNoFold` | tun/checksum.go:95-102 | the result represents the pseudo-header |
| `Checksum.ComplementValid` | tun/offload_linux.go:388-398 | putting the complement of the sum into a packet makes the packet sum to all ones |
| `Gso.ConcatChunks` | tun/offload_linux.go:901-983 | pieces of a payload concatenate to it |
| `Gso.ChunksConcat` | tun/offload_linux.go:901-983 | pieces of equal size but for a shorter last one come back from their concatenation |
| `Gso.ChecksumValid` | tun/offload_linux.go:388-398 | the answer is whether pseudo-header and transport part sum to all ones |
| `Gso.IpHeader` | tun/offload_linux.go:935-951 | length fields and, for IPv4, identification and header checksum of a segment are right |
| `Gso.Transport` | tun/offload_linux.go:953-968 | flags or UDP length of a segment are right, and its sequence number is the first one plus what precedes it, although the source multiplies in 16 bits |
| `Gso.Segment` | tun/offload_linux.go:930-980 | a segment has the headers and the piece it should have and a valid transport checksum |
| `Gso.GsoSplit` | tun/offload_linux.go:901-983 | the segments are exactly the pieces, each valid; it fails exactly if there are more pieces than buffers, and then reports one less than it filled |
| `GroLedger.AppendedSound` | tun/offload_linux.go:444-506 | appending a packet keeps every packet in exactly one buffer, in order |
| `GroLedger.PrependedSound` | tun/offload_linux.go:444-506 | prepending a packet keeps every packet in exactly one buffer, in order |
| `Gro.SeqNoAt` | tun/offload_linux.go:334-386 | sequence numbers of merged packets advance by the segment size modulo 2^32 |
| `Gro.LastFull` | tun/offload_linux.go:334-386 | a payload that is a multiple of the segment size ends in a full segment |
| `Gro.SequencedAppend` | tun/offload_linux.go:349-367 | the 16-bit length in the append test loses nothing, so an appended packet continues the sequence |
| `Gro.SequencedPrepend` | tun/offload_linux.go:368-384 | a prepended packet precedes the sequence |
| `Gro.ParseTcpIff` | tun/offload_linux.go:532-586 | a packet is a TCP candidate exactly if it has a description: whole, with a payload, acknowledging and at most pushed; parsing finds it |
| `Gro.ParseUdpIff` | tun/offload_linux.go:787-827 | a packet is a UDP candidate exactly if it is whole and has a payload; parsing finds its description |
| `Gro.PacketKindIff` | tun/offload_linux.go:751-777 | a packet is taken for one of a protocol exactly if it has the headers of it, of UDP only if that is wanted |
| `Gro.TcpModeIff` | tun/offload_linux.go:334-386 | the test for coalescing answers append exactly if the packet continues what the buffer carries, and prepend exactly if it precedes it and does not push: header bytes that are kept agree, sequence numbers have no gap, all but the last packet are full and the last is not larger, only the last pushes |
| `Gro.UdpModeIff` | tun/offload_linux.go:311-329 | likewise for UDP, where a packet can only continue |
| `Gro.MergeTwin` | tun/offload_linux.go:279-308 | packets of one flow whose headers may be merged agree in all header bytes that a merged packet keeps |
| `Gro.AppendItem` | tun/offload_linux.go:334-367 | a packet that may be appended continues the item: payloads, sequence numbers, flow and header bytes |
| `Gro.PrependTcp` | tun/offload_linux.go:368-384 | a packet that may be prepended precedes the item in the same sense |
| `Gro.AppendKeepsPush` | tun/offload_linux.go:475-497 | after an append the header in front has the push flag of the last packet |
| `Gro.PrependLosesPush` | tun/offload_linux.go:450-474 | after a prepend it has it exactly if there was none |
| `Gro.ChunksOfItem` | tun/offload_linux.go:531-621 | cutting a coalesced payload by its segment size gives back the payloads merged into it |
| `Gro.SeqOfItem` | tun/offload_linux.go:901-983 | the sequence number computed for a piece is the one its packet came with |
| `Gro.SplitGivesBack` | tun/offload_linux.go:901-983 | a segment of a coalesced buffer carries its packet's payload, is of its flow, agrees with it in all header bytes that are kept, has its sequence number, and has right lengths and checksums; its TCP flags are right exactly if it is not the last, or does not push, or the packet in front did not come after it |
| `GroBatch.FixHeaders` | tun/offload_linux.go:625-739 | length fields, IPv4 header checksum and pseudo-header checksum of a coalesced packet are right, and no other byte changes |
| `GroBatch.Batch.CoalesceTcp` | tun/offload_linux.go:444-506 | a TCP packet that continues or precedes an item is merged exactly if there is room, it does not push when in front, and both checksums are right; the item is found spoilt exactly if all this holds but for the checksum of the one packet in it; otherwise the search ends here exactly if there is room for it |
| `GroBatch.Batch.TcpGro` | tun/offload_linux.go:531-621 | a TCP candidate is merged, at the right end, exactly if it can be merged into some item of its flow, namely the last one that it goes with; it is left as it is exactly if it goes with one but its own checksum is wrong; otherwise it becomes a new item behind the others; exactly the items that it meets spoilt on the way are dropped; no buffer changes unless it is merged |
| `GroBatch.MergeableReached` | tun/offload_linux.go:587-621 | a packet can be merged into some item of its flow exactly if it can be merged into the one at which the search ends |
| `GroBatch.TcpCandidateIff` | tun/offload_linux.go:531-586 | a packet is a TCP candidate exactly if it has a description as a TCP packet |
| `GroBatch.Batch.CoalesceUdp` | tun/offload_linux.go:414-438 | a UDP packet is merged exactly if it fits and the checksums are right |
| `GroBatch.Batch.UdpGro` | tun/offload_linux.go:786-858 | a UDP candidate is merged exactly if it continues the last item of its flow, there is room and the checksums are right, and comes last in its flow; otherwise no buffer changes and it becomes a new item, marked if its own checksum was found wrong |
| `GroBatch.Batch.Evaluate` | tun/offload_linux.go:866-892 | every packet is dealt with: it is in a buffer that holds it as it came, or in one that an item describes; the list of buffers to write stays ascending; what is dropped is exactly what the packets met spoilt |
| `GroBatch.WholeNext` | tun/offload_linux.go:866-892 | whatever happens to one buffer, its item and its offload header, the others are still as they came or described by an item |
| `GroBatch.MergedTcp` | tun/offload_linux.go:603-607 | merging a TCP packet keeps the ledger, the tables and the fate of every buffer right |
| `GroBatch.MergedUdp` | tun/offload_linux.go:838-843 | so does merging a UDP packet, which comes last in its flow |
| `GroBatch.DroppedTcp` | tun/offload_linux.go:608-610 | dropping an item leaves its one packet as it came, without an offload header |
| `GroBatch.NothingDropped` | tun/offload_linux.go:608-610 | nothing is dropped if all TCP packets have right checksums |
| `GroBatch.NoneDroppedIff` | tun/offload_linux.go:597-614 | over a whole batch, nothing is dropped exactly if no packet meets a spoilt item |
| `GroBatch.RecordedNext` | tun/offload_linux.go:597-614 | what has been dropped is, packet after packet, exactly what the packets met |
| `GroBatch.DroppedOne` | tun/offload_linux.go:608-610 | coalescing two given packets drops the item of the first, which is written as it came and without an offload header |
| `GroBatch.WrittenIs` | tun/offload_linux.go:866-892 | what is written of a flow is what its buffers carry, in the order of their indices |
| `GroBatch.Batch.Account` | tun/offload_linux.go:625-739 | every item left in a table gets its offload header and right headers |
| `GroBatch.Batch.HandleGro` | tun/offload_linux.go:865-896 | every packet ends up in exactly one buffer listed for writing; a buffer with one packet holds it as it came, a buffer with several has an item and its offload header; what is written of every UDP flow, buffer after buffer, is what arrived, in order; items are dropped exactly when a packet meets them spoilt; fails exactly if the offset is too small or a packet is empty |
| `GroBatch.Batch.SplitBuffer` | tun/offload_linux.go:901-983 | splitting a coalesced buffer of the batch gives its packets back, and their TCP flags exactly if not the last pushes and the one in front came after it |
| `GroBatch.Batch.ReadBatch` | tun/offload_linux.go:901-983 | reading back all that was written gives every packet of the batch back, and nothing else, except those whose item was dropped: packets on their own as they came, coalesced ones with their payload, flow, kept header bytes, sequence number, right lengths and checksums, and their TCP flags exactly if they are not the last or their push was not overtaken |
| `Replay.AcceptedExactly` | replay/replay.go:37-62 | the history holds exactly the counters accepted in the run |
| `Replay.NoReplay` | replay/replay.go:37-62 | no counter is accepted twice in a run |
| `Replay.AcceptsIff` | replay/replay.go:37-62 | in every run a message is accepted exactly if its counter is below the limit, differs from all that were accepted, and is at most 8128 behind each of them |
| `Replay.HistoryOk` | replay/replay.go:37-62 | the recorded maximum is the largest accepted counter, or 0 |
| `Replay.Filter.Reset` | replay/replay.go:30-33 | clearing one block is enough for the filter to remember nothing |
| `Replay.Filter.ValidateCounter` | replay/replay.go:37-62 | accepts exactly counters below the limit that are new and at most the window below the largest accepted one |
| `Handshakes.RotateMoves` | device/noise-protocol.go:583-608 | rotating key pairs keeps the table exact for the peer and leaves other peers' entries alone |
| `Handshakes.BeginMoves` | device/noise-protocol.go:524-611 | so does deriving a key pair, whose index passes from the handshake to it |
| `Handshakes.FlushMoves` | device/peer.go:215-229 | flushing the key pairs of a peer keeps the table exact and leaves other entries alone |
| `Handshakes.ExactNext` | device/noise-protocol.go:239-249 | every step keeps the table exactly the disjoint union of what handshakes and key pairs own |
| `Handshakes.HistoryNext` | device/noise-protocol.go:424-630 | every step, if responses are stored in time, keeps handshakes unused and key pairs of different handshakes |
| `Handshakes.RunInv` | device/indextable.go:38-92 | in every run of any number of peers and workers in which responses are stored in time and 0 is never drawn, the table is exact and handshakes are used once |
| `Handshakes.SteadyIffInTime` | device/noise-protocol.go:442-513 | in every run all of this holds, even if a session is begun at any moment, exactly if every store finds the handshake with an index and the session unused |
| `Handshakes.TooLate` | device/noise-protocol.go:506-519 | a response stored later than that makes the next session go wrong |
| `Handshakes.StillAwaited` | device/noise-protocol.go:442-513 | a store is in time if the handshake still awaits the response that was checked |
| `Handshakes.TwoWorkers` | device/receive.go:442-461 | from any state that awaits a response, two workers with one response yield two key pairs with the same secrets, the second without an index |
| `Handshakes.LookupFinds` | device/indextable.go:94-98 | an index finds a handshake or key pair exactly if that owns it |
| `Handshakes.FlushedIff` | device/peer.go:215-239 | a peer that is stopped has no index left exactly if no session of it began between the two halves |
| `Handshakes.NoCrossPeerChange` | device/indextable.go:38-92 | no step changes what the table or the device holds for another peer |
| `Handshakes.AtMostFour` | device/keypair.go:35-52 | a peer has at most four entries |
| `Handshakes.BecomesCurrent` | device/noise-protocol.go:613-630 | a responder's key pair becomes current only in the step that accepts a packet under it while it is the next one |
| `Handshakes.ResponderConfirmed` | device/receive.go:495-510 | in every run there is such a step, of that peer and key pair: the packet is authentic and its counter passes the key pair's replay filter |
| `Handshakes.NoCounterTwice` | device/receive.go:495-510 | in every run, whatever becomes of a key pair, no counter is accepted twice under it |
| `Handshakes.OneKeypairPerHandshake` | device/noise-protocol.go:524-611 | in every run in which responses are stored in time two key pairs never come from the same handshake |
| `Handshakes.ResponseAwaited` | device/noise-protocol.go:424-519 | in every run a handshake comes to hold a response only after a worker has checked it, found by an index, against that very session while it was awaited |
| `Handshakes.ZeroDrawn` | device/indextable.go:58-92 | the table stays exact exactly if the index drawn is not 0, for an initiation and for a response |
| `Handshakes.InitiationDrawFails` | device/noise-protocol.go:239-249 | if no index can be drawn, exactness survives exactly if the handshake had none |
| `Handshakes.ResponseDrawFails` | device/noise-protocol.go:365-372 | if no index can be drawn, exactness survives exactly if the junk value is 0 |
| `Handshakes.FirstFree` | device/indextable.go:58-92 | the first drawn index that is not in use, or failure if all are |
| `Handshakes.IndexTable.NewIndexForHandshake` | device/indextable.go:58-92 | the retry loop takes the first unused draw and enters it |
| `Handshakes.IndexTable.SwapIndexForKeypair` | device/indextable.go:44-56 | an entry that exists passes to the key pair and keeps its peer |
| `Handshakes.PeerObject.CreateMessageInitiation` | device/noise-protocol.go:180-250 | the peer and the table take exactly the step of the state machine, also when a draw, the ephemeral key or a secret fails |
| `Handshakes.PeerObject.ConsumeMessageInitiation` | device/noise-protocol.go:331-347 | an accepted initiation takes exactly the step of the state machine |
| `Handshakes.PeerObject.CreateMessageResponse` | device/noise-protocol.go:356-422 | the peer and the table take exactly the step of the state machine, also when it is refused or fails |
| `Handshakes.PeerObject.CheckResponse` | device/noise-protocol.go:442-498 | the check takes exactly the step of a worker in the state machine |
| `Handshakes.PeerObject.StoreCheckedResponse` | device/noise-protocol.go:506-513 | so does the store, whatever the handshake has become |
| `Handshakes.PeerObject.BeginSymmetricSession` | device/noise-protocol.go:524-611 | succeeds exactly in the two states that allow it, with the rotation of the state machine: a responder goes on with its current key pair while the new one waits, an initiator uses the new one and keeps the waiting or else the current one |
| `Handshakes.PeerObject.ReceivedWithKeypair` | device/noise-protocol.go:613-630 | succeeds exactly for the next key pair, which becomes current, and the current one is kept as the previous one |
| `Handshakes.PeerObject.ReceivePacket` | device/receive.go:495-510 | a packet counts exactly if it is authentic and the filter in memory, tied to the history of the key pair, admits its counter; only then is the key pair promoted |
| `Handshakes.PeerObject.ClearKeypairs` | device/peer.go:215-229 | all key pairs go, with their entries, and the handshake stays |
| `Handshakes.PeerObject.ExpireCurrentKeypairs` | device/peer.go:241-258 | the handshake goes, with its entry, key pairs stay, and the send nonces of the current and the next one are used up |
| `KeypairLife.LifeNext` | device/noise-protocol.go:583-630 | for every key pair and every step of the state machine, where the peer has it afterwards: its life from waiting or current to previous to gone |
| `KeypairLife.FoundIff` | device/indextable.go:94-98 | a key pair is found by its index exactly as long as the peer has it |
| `KeypairLife.CurrentNext` | device/noise-protocol.go:583-630 | a peer with a current key pair has one after every step other than flushing |
| `KeypairLife.ResponderGoesOn` | device/noise-protocol.go:603-608 | a responder that derives a key pair keeps the current one and its entry in the table |
| `KeypairLife.OldOneKept` | device/noise-protocol.go:590-630 | when another key pair becomes current, the old one, or the one that waited, becomes the previous one and keeps its entry |
| `KeypairLife.CurrentUntil` | device/noise-protocol.go:583-630 | in every run a key pair stays current exactly until an initiator derives one, a waiting one is confirmed, or key pairs are flushed |
| `KeypairLife.InitiatorCompletes` | device/noise-protocol.go:180-611 | from any state, an initiation whose response arrives yields a current key pair with the two indices, an empty filter and an entry in the table |
| `KeypairLife.ResponderCompletes` | device/noise-protocol.go:331-611 | from any state, an initiation that is consumed and answered yields a waiting key pair in the same sense |
| `KeypairLife.Confirmation` | device/noise-protocol.go:613-630 | the first authentic packet under a waiting key pair makes it current |
| `KeypairLife.StateIs` | device/noise-protocol.go:180-611 | exactly which steps put a handshake into which state |
| `KeypairLife.ResponderHistory` | device/noise-protocol.go:331-611 | in every run, behind every responder's key pair there are an initiation from its remote index, the response under its local index, and the step that began the session, in this order |
| `Initiations.OrderlyIff` | device/noise-protocol.go:316-347 | in every run of any number of workers initiations are consumed with increasing time stamps and at the rate allowed exactly if at each store the check would pass again |
| `Initiations.NeverTwiceIff` | device/noise-protocol.go:316-347 | in every complete run no initiation is consumed twice exactly if at no moment two workers have passed the check with the same time stamp |
| `Initiations.DueNext` | device/noise-protocol.go:316-347 | how often a time stamp has been or will be consumed grows only when a check passes |
| `Initiations.PassesIff` | device/noise-protocol.go:316-330 | in every run of any number of workers an initiation passes the check exactly if its time stamp is greater than all consumed and all consumptions are more than 20 milliseconds ago |
| `Initiations.HandledTwice` | device/noise-protocol.go:316-347 | one initiation handled by two workers is consumed twice |
| `Nonce.NextTidy` | device/send.go:422-449 | the counter exceeds the limit by at most the number of stores due, and nonces are used consecutively |
| `Nonce.RunTidy` | device/send.go:422-449 | so in every interleaving of senders and expiries |
| `Nonce.NeverWraps` | device/constants.go:16 | the counter never wraps in any interleaving exactly if there are at most 2^13 senders |
| `Nonce.NeverReuses` | device/send.go:422-449 | no nonce is used twice or after expiry, and all are below the limit, exactly if there are at most 2^13 + 1 senders |
| `Nonce.Keypair.AssignNonces` | device/send.go:431-455 | a batch keeps as many elements as the limit allows, with consecutive nonces, and stages the others again in order |
| `Noise.DecryptIff` | device/noise-protocol.go:276-281 | a field is opened exactly if it was sealed under the same key and hash |
| `Noise.SameSecret` | device/noise-helpers.go:100-108 | both sides compute the same secret for a token |
| `Noise.ReadWritten` | device/noise-protocol.go:180-519 | for every pattern, reading what a matching party wrote gives its payload and the same symmetric state |
| `Noise.AcceptedIsWritten` | device/noise-protocol.go:252-519 | for every pattern, an accepted message is the one that the party it comes from would have written |
| `NoiseIk.HonestRun` | device/noise-protocol.go:180-561 | in every honest run both messages are accepted and hash, chain key and cipher key agree after each |
| `NoiseIk.FirstAcceptedIff` | device/noise-protocol.go:252-354 | whatever keys are in it, a first message is accepted exactly if it is one of someone who has both shared secrets |
| `NoiseIk.FirstFromOwnerIff` | device/noise-protocol.go:252-354 | with public keys of private ones in it, exactly if their owner would have sent it |
| `NoiseIk.SecondAcceptedIff` | device/noise-protocol.go:424-519 | whatever key is in it, a second message is accepted exactly if it is one of someone who has both shared secrets and the pre-shared key |
| `NoiseIk.SecondFromOwnerIff` | device/noise-protocol.go:424-519 | with the public key of a private one in it, exactly if the one called, as its owner, would have sent it |
| `NoiseIk.OtherPskRefused` | device/noise-protocol.go:476-495 | with different pre-shared keys the second message is refused |
| `NoiseCells.Kdf1` | device/noise-helpers.go:43-46 | first output of HKDF, also when it overwrites its key |
| `NoiseCells.Kdf2` | device/noise-helpers.go:48-54 | two outputs of HKDF, also when one overwrites the key |
| `NoiseCells.Kdf3` | device/noise-helpers.go:56-63 | three outputs of HKDF, also when one overwrites the key |
| `NoiseDevice.Handshake.CreateMessageInitiation` | device/noise-protocol.go:180-250 | writes the first message of IKpsk2, and fails exactly when that does |
| `NoiseDevice.ConsumeMessageInitiation` | device/noise-protocol.go:252-354 | one worker accepts exactly what IKpsk2 accepts from a known, running peer with a newer time stamp and longer after the last consumption than the rate allows, and changes nothing otherwise |
| `NoiseDevice.Handshake.CheckNew` | device/noise-protocol.go:316-330 | the check for replay and flood takes exactly the step of a worker in `Initiations` |
| `NoiseDevice.Handshake.StoreInitiation` | device/noise-protocol.go:331-347 | so does the store, whatever has become of the handshake; neither the time stamp nor the time of the last consumption goes back |
| `NoiseDevice.Handshake.CreateMessageResponse` | device/noise-protocol.go:356-422 | in the state that allows it writes the second message of IKpsk2, and fails exactly when that does; otherwise changes nothing |
| `NoiseDevice.Handshake.CheckResponse` | device/noise-protocol.go:442-498 | in the state that awaits a response, the check follows IKpsk2 on scratch cells |
| `NoiseDevice.Handshake.ConsumeMessageResponse` | device/noise-protocol.go:424-519 | accepts exactly what IKpsk2 accepts in the state that awaits it, and changes nothing otherwise |
| `NoiseDevice.Handshake.DeriveKeys` | device/noise-protocol.go:530-561 | in the two states that allow it, the two keys of the chain key, the other way round on the other side; secrets are cleared |
| `NoiseDevice.ExchangeFirst` | device/noise-protocol.go:180-354 | in an honest exchange, with a newer time stamp and outside a flood, hash and chain key of both devices agree after the first message |
| `NoiseDevice.ExchangeSecond` | device/noise-protocol.go:356-561 | and after the second each sends with the key the other receives with |
| `NoiseControl.InitiatorSend` | orchestrate/control/noise.go:74-119 | writes the first message of IK |
| `NoiseControl.InitiatorReceive` | orchestrate/control/noise.go:121-153 | accepts exactly what IK accepts and derives its keys |
| `NoiseControl.ResponderReceive` | orchestrate/control/noise.go:163-218 | accepts exactly what IK accepts from a known peer without replay |
| `NoiseControl.ResponderSend` | orchestrate/control/noise.go:220-256 | writes the second message of IK and derives its keys |
| `NoiseControl.Exchange` | orchestrate/control/noise.go:74-256 | in an honest exchange both sides succeed, know each other, and each sends with the key the other receives with |
| `Bind.DeliversGroup` | conn/bind_std.go:450-498 | splitting a message by its segment size gives back its datagrams in order, except empty ones |
| `Bind.CoalesceMessages` | conn/bind_std.go:450-498 | messages carry all datagrams in order, in the buffer of the first of them; a segment size is set exactly once, and only on messages of several; at most 64 datagrams and 65535 bytes with headers are in one; a group ends only when the next datagram cannot join |
| `Bind.SegmentsExact` | conn/bind_std.go:518-521 | the segments are the pieces of what was received exactly if the segment size is not larger than that |
| `Bind.ChunksCount` | conn/bind_std.go:518-521 | the rounded-up quotient is the number of pieces |
| `Bind.UnreadNext` | conn/bind_std.go:522-535 | each copy takes the next piece |
| `Bind.SplitOne` | conn/bind_std.go:508-541 | the segments of a message go to consecutive slots, in place, and it overflows exactly if they would go beyond the message itself |
| `Bind.SplitCoalescedMessages` | conn/bind_std.go:502-544 | all segments arrive in order with their addresses; which of end, bad control data and overflow comes first decides the outcome |
| `Ratelimiter.AvailableNext` | ratelimiter/ratelimiter.go:84-137 | for calls one after the other, only an allowed call takes tokens; sweeping takes none |
| `Ratelimiter.RateBounded` | ratelimiter/ratelimiter.go:99-137 | for calls one after the other, in any stretch of any run allowed calls of an address cost less than a full bucket plus the time that passes |
| `Ratelimiter.AllowedIff` | ratelimiter/ratelimiter.go:119-137 | a call is allowed exactly if there is more in its bucket than it costs |
| `Ratelimiter.ShortIff` | ratelimiter/ratelimiter.go:119-137 | a bucket that is full at first has too little for a call exactly if what it paid for in some stretch leaves too little of a full bucket and the time that passed |
| `Ratelimiter.RefusedIff` | ratelimiter/ratelimiter.go:99-137 | for calls one after the other, in every run a call is refused exactly if some stretch before it has exhausted the bucket of its address so |
| `Ratelimiter.TwentyPerSecond` | ratelimiter/ratelimiter.go:14-20 | fewer than five calls, and one for every 50 milliseconds, are allowed in any stretch |
| `Ratelimiter.FourAtOnce` | ratelimiter/ratelimiter.go:99-137 | of any number of calls of a new address at one moment exactly the first four are allowed |
| `Ratelimiter.SweepInvisible` | ratelimiter/ratelimiter.go:84-97 | for calls one after the other, every answer is the one of a limiter that never deletes entries |
| `Ratelimiter.LevelNext` | ratelimiter/ratelimiter.go:99-137 | however calls overlap, tokens come from the clock and from gains only, and go to calls that are allowed |
| `Ratelimiter.OverlapBounded` | ratelimiter/ratelimiter.go:99-137 | in any stretch of any run of overlapping calls and sweeps, allowed calls of an address cost less than a full bucket plus the time that passes plus its gains |
| `Ratelimiter.ConservedIff` | ratelimiter/ratelimiter.go:99-137 | a step keeps the tokens of every address, but for the cost of a call that is allowed, exactly if what the call found still holds when it acts: no bucket, or a full one, or the one it holds |
| `Ratelimiter.UndisturbedBounded` | ratelimiter/ratelimiter.go:99-137 | the plain bound holds in every stretch in which that is so |
| `Ratelimiter.GrantedIff` | ratelimiter/ratelimiter.go:99-137 | a call that has found no bucket is allowed when it acts; one that holds a bucket exactly if there is more in that one than it costs |
| `Ratelimiter.FillNext` | ratelimiter/ratelimiter.go:99-137 | however calls overlap, only the calls that a bucket pays for take tokens out of it, whether it is in use or not |
| `Ratelimiter.OverlapRefusedIff` | ratelimiter/ratelimiter.go:99-137 | in every run of overlapping calls and sweeps a call is refused exactly if it holds a bucket that some stretch before it has exhausted |
| `Ratelimiter.AllAllowed` | ratelimiter/ratelimiter.go:99-118 | any number of calls of a new address that all look before one of them acts are allowed at one moment |
| `Ratelimiter.Limiter.Cleanup` | ratelimiter/ratelimiter.go:84-97 | exactly the stale entries are deleted, and the answer is whether none is left |
| `Ratelimiter.Limiter.Allow` | ratelimiter/ratelimiter.go:99-137 | the answer and the new entry are those of the token bucket; the call is allowed exactly if there is more in it than it costs |
| `Text.ParseDecimal` | orchestrate/obfuscation.go:12-17 | a decimal number is read back, and refused exactly if it is out of range |
| `Text.DecodeEncodedHex` | device/noise-types.go:34-44 | bytes written in hexadecimal are read back |
| `Text.LinesRendered` | device/uapi.go:235-254 | lines that are written are read back |
| `Uapi.FromToString` | device/noise-types.go:106-155 | a range is read back, and refused exactly if it is not one |
| `Uapi.OverlapIff` | device/noise-types.go:157-162 | ranges overlap exactly if they have a header in common |
| `Uapi.PickOne` | device/noise-types.go:142-145 | the header picked is in the range, also for the range of all headers |
| `Uapi.PickedIff` | device/noise-types.go:142-145 | every header of a range can be picked, except that of the range of all headers only 0 is |
| `Uapi.MergeSafe` | device/uapi.go:794-847 | a merge succeeds exactly if what is staged is safe; if it fails, a safe device stays safe, and only its headers have changed, exactly if the staged ones are disjoint |
| `Uapi.RunSafe` | device/uapi.go:220-289 | after any run of set operations header ranges are disjoint, and a header key comes with paddings of at least 12 |
| `Uapi.Device.MergeWith` | device/uapi.go:794-847 | the nested loops and stores do exactly the merge |
| `Codec.GetPutString` | orchestrate/control/messages.go:172-175 | what arrives of a string whose length is cut to 16 bits |
| `Codec.GetPutAddrPort` | orchestrate/control/messages.go:177-218 | what arrives of an address and a port |
| `Codec.DecodeCloakedEncoded` | orchestrate/control/messages.go:312-334 | obfuscation parameters arrive unchanged, except for what is lost of the endpoint's address |
| `Codec.RoundTrip` | orchestrate/control/messages.go:342-485 | decoding gives a message back, whatever follows it, exactly if no string is too long and no address is missing or has a zone |
| `Codec.LaidOut` | orchestrate/control/messages.go:254-339 | the type number of every message and the position of everything in its body |
| `Framing.FrameRoundTrip` | orchestrate/control/codec.go:69-115 | a message arrives, and nothing behind its frame is touched, exactly if the frame is at most 64 KiB and the encoding can express the message |
| `Framing.FrameLaid` | orchestrate/control/codec.go:69-88 | a frame is the length of what is sealed in four bytes, and the sealed type byte and body |
| `Framing.StreamRoundTrip` | orchestrate/control/codec.go:69-115 | a sequence of messages is received in order, whatever follows on the stream, exactly if each of them would arrive on its own |
| `Framing.Conn.Send` | orchestrate/control/codec.go:69-88 | exactly the frame under the next counter is written |
| `Framing.Conn.Recv` | orchestrate/control/codec.go:91-115 | exactly one frame is read, and the counter moves on exactly if a whole frame was there |
| `Framing.Converse` | orchestrate/control/codec.go:69-115 | what one end sends the other receives, and the counters stay in step |
| `Profile.WireRoundTrip` | orchestrate/obfuscation.go:78-89 | what both ends must agree on survives the control message |
| `Profile.WireLaid` | orchestrate/obfuscation.go:78-89 | where each padding, each end of a header range and the key are in the control message |
| `Profile.FieldRead` | device/uapi.go:368-422 | each setting is read as it was meant, or refused exactly if it cannot be |
| `Profile.CoreConfigures` | orchestrate/obfuscation.go:94-124 | Y's device is set to what the parameters say, unless they cannot be read or are not safe |
| `Profile.Transfer` | orchestrate/obfuscation.go:23-124 | for every profile that X's fresh device accepts, encoding, decoding and rendering sets a fresh Y device as X is, exactly if the profile is harmless: the last line behind the nine settings that names one of them says the profile's value |
| `Profile.UnchangedIff` | device/uapi.go:235-283 | lines leave the settings as they are exactly if, for each setting, the last line that names it before a blank line or a peer says its value |
| `Profile.LastWins` | device/uapi.go:235-283 | of the lines that name a setting the last decides |
| `Profile.NoLineEnds` | orchestrate/obfuscation.go:61-65 | packet descriptions without line ends do no harm |
| `Profile.LineEndInSpec` | orchestrate/obfuscation.go:61-65 | a profile with a line end in a packet description that X accepts and that is not harmless |
| `Classify.HeaderFound` | device/receive.go:595-648 | the header of a sent packet is found, unmasked, where its kind says |
| `Classify.PaddingNamed` | device/uapi.go:368-394 | a line named `s1` to `s4` sets the padding of initiations, responses, cookie replies or transport messages and nothing else, or is refused exactly if the number needs more than 16 bits |
| `Classify.HeaderNamed` | device/uapi.go:396-422 | a line named `h1` to `h4` sets their headers likewise, or is refused exactly if it is no range |
| `Classify.KeyNamed` | device/uapi.go:459-465 | a line named `header_protection_key` sets the key, or is refused exactly if that has not 32 bytes |
| `Classify.SentExactly` | device/send.go:149-169 | under a header key every byte of a handshake message and the first 16 of a transport message go out masked, each by its own byte of the key stream of the first 12 bytes of the packet, and nothing else is changed |
| `Classify.ReceivedExactly` | device/receive.go:144-241 | what is accepted is unmasked in exactly these bytes |
| `Classify.DeterminedIff` | device/receive.go:595-648 | a packet is taken for the first kind, in the order of the source, whose size and header it has behind the padding |
| `Classify.AcceptedIff` | device/receive.go:136-241 | exactly such packets are accepted that are not below the least size, transport messages only with room for an authentication tag |
| `Classify.Delivered` | device/receive.go:144-241 | if no headers clash, every packet is recognized as its kind and unmasked to what was sent |
| `Classify.Misread` | device/receive.go:595-648 | if headers clash, some packet is taken for another kind |
| `Classify.DeliveredIff` | device/receive.go:595-648 | all packets are delivered exactly if no headers clash |
| `Classify.MatchClashes` | device/receive.go:595-648 | a packet that could be of an earlier kind shows that headers clash |
| `Classify.ApartClash` | device/receive.go:595-648 | headers of packets of the same size always clash if their places do not overlap |
| `Classify.ClearNoClash` | device/receive.go:595-648 | they never clash if kinds that can be of the same size have equal paddings |
| `Classify.ClashWithoutKey` | device/receive.go:595-648 | without a header key, whether they clash depends on the header ranges and paddings alone |
| `Classify.XorKeyStream` | device/receive.go:589-593 | exactly the given bytes are masked, from the given position of the key stream |
| `Classify.SendInPlace` | device/send.go:149-169 | a padded message is masked in place: under a header key all of a handshake message, the first 16 bytes of a transport message, and nothing else |
| `Classify.ReceiveInPlace` | device/receive.go:144-241 | a packet is unmasked in place, and dropped exactly if it is of no kind or too short |
| `Cloaked.ReachableDelivered` | device/send.go:545-596 | under the settings reached by any run of set operations, all packets are delivered exactly if no headers clash |
| `Cloaked.EqualPaddings` | device/send.go:545-596 | with equal paddings they are |
| `Cloaked.AcrossDevices` | orchestrate/obfuscation.go:12-124 | when X accepts a profile, Y is set as X exactly if the profile is harmless, and what they then send each other is received exactly if no headers clash |
| `NativeFlow.SharedDevice.AttemptOnX` | orchestrate/nativeflow/native.go:68-140 | succeeds exactly if the peer could be set up and a poll in time saw a handshake not before the second of the start; a timed-out attempt that could clean up leaves no peer; others are untouched |
| `NativeFlow.HonestNext` | orchestrate/orchestrate.go:317-352 | every step keeps what Y is told and concludes true |
| `NativeFlow.NativeOnlyIfReached` | orchestrate/orchestrate.go:600-660 | in every run Y is in native mode only if X's attempt for its session id, on its connection and for its key, succeeded |
| `NativeFlow.TakenExactly` | orchestrate/orchestrate.go:600-660 | for every message that Y takes and every state, exactly when Y is in it afterwards |
| `NativeFlow.SettledIff` | orchestrate/orchestrate.go:600-733 | in every run Y is native under a session id exactly if it has taken the word that it is reached under that id while waiting for it, configured exactly if it has taken the parameters while waiting for them, gone exactly if it was timed out, dropped or refused in the background; and then stays so |
| `NativeFlow.AlwaysAttended` | orchestrate/orchestrate.go:317-352 | in every run, on every open connection, what Y waits for is on its way or X has yet to see to it, and whoever is refused is sent parameters next |
| `NativeFlow.NeverStuck` | orchestrate/orchestrate.go:317-352 | so as long as Y waits, it can take a message or X can take a step |
| `NativeFlow.DeviceNext` | orchestrate/nativeflow/native.go:68-140 | for every peer and every step, whether it is on the shared device afterwards and which handshake it shows |
| `NativeFlow.AttemptSucceeds` | orchestrate/nativeflow/native.go:68-140 | from any state, an attempt on a free connection with a handshake in time makes Y native |
| `NativeFlow.AttemptFails` | orchestrate/nativeflow/native.go:132-140 | one without ends with Y configured in cloaked mode and no peer left on the device |
| `NativeFlow.SuccessWasSeen` | orchestrate/nativeflow/native.go:125-131 | behind every success there is a poll of the run that saw the handshake in time |
| `NativeFlow.SuccessWasShaken` | orchestrate/nativeflow/native.go:125-131 | and before that poll the handshake itself, not before the second in which the attempt began |
| `NativeFlow.PollsAgree` | orchestrate/nativeflow/native.go:125-131 | whatever others do between polls, X has answered in the state machine exactly if the polling of an attempt succeeds |
| `NativeFlow.RunAccounted` | orchestrate/orchestrate.go:317-352 | in every run a peer on the shared device is being waited for, has been reached, or could not be removed |
| `NativeFlow.GoneUntilAdded` | orchestrate/nativeflow/native.go:133-139 | in every run a peer that a timed-out attempt could remove is on the device again only after a new attempt for its key |
| `NativeFlow.GivenUpNeverNative` | orchestrate/orchestrate.go:317-352 | in every run, once X has given up on a session id, no Y is ever in native mode under it |
| `NativeFlow.DecidedNext` | orchestrate/orchestrate.go:317-352 | every step keeps attempts under way different, their own connection's and undecided, and no attempt both succeeds and fails |

## Left out

- Ciphers, hashes, curves and random sources: symbolic terms, arbitrary functions or inputs stand for them; MACs and cookies are not modelled.
- Handshakes.ExactNext: giving up an index and drawing a new one is one step, although the lock of the table is released in between; so is deriving a key pair, which holds the lock of the handshake throughout and that of the key pairs at the end.
- Handshakes.PeerObject.ConsumeMessageInitiation: does not contain the checks before the store, which are those of `NoiseDevice.ConsumeMessageInitiation`; the store is taken to happen at any time, whatever the state.
- NoiseDevice.Handshake.ConsumeMessageResponse: does not contain the lookup by index, which is a step of a worker in `Handshakes`; there check and store are two steps.
- NoiseDevice.ConsumeMessageInitiation: is about one worker undisturbed; several are the state machine of `Initiations`.
- Nonce.Keypair.AssignNonces: is about one sender undisturbed; interleaved senders are the state machine of `Nonce`.
- Clearing the pointers of removed trie nodes for the garbage collector.
- GroBatch.Batch.HandleGro: requires buffers of less than 2^16 bytes of capacity, as the lengths in the source are 16 bits wide; window, urgent pointer, reserved bits, IP identification and flow label of merged packets are kept only for the head packet, as in the source.
- Gso.GsoSplit: requires a positive segment size, an IP header of at least the least length in front of the checksum start, headers that are all there, and the checksum offset of the protocol; the source checks only that the headers and the checksum field are there and relies on the kernel for the rest.
- Ratelimiter.Limiter.Allow: does not model elapsed times beyond 2^63 nanoseconds; reading the clock and storing a new bucket are one step.
- Bind.CoalesceMessages: buffers are values with a capacity, so that two buffers sharing memory are not modelled; the source control data of a message is not modelled.
- AllowedIps.Table.Insert: addresses are strings of 32 or 128 bits; the arithmetic on bytes is proved to agree with them in `AddressBytes`.
- Replay.Filter.ValidateCounter: a block of the ring is written out as its 64 bits rather than as a machine word.
- Framing.Conn.Recv: how a connection is read and written in pieces is not modelled, nor are counters beyond 2^64.
- Uapi.RunSafe: whether other settings and the lines of peers are accepted is an input; lines longer than the line scanner's buffer are not modelled.
- NativeFlow.RunAccounted: sockets, address probing and the devices of Y are not modelled, nor whether a handshake follows in cloaked mode, and Y's background upgrade is reduced to its two reports.
- Timers, persistence, network-change detection, netstack, DNS, TUN devices and operating-system sockets: environment or thin wrappers.
- The deobfuscating direction of packet descriptions: nothing in the repository calls it.

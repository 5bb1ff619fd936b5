# Verified model of the ticketing platform's replicated state, codecs and small protocols

The platform sells event tickets and checks them at gates that may be offline. This Dafny
project models the parts of it whose correctness is not visible from any one function:

- **Replicated data on the server.** Vector clocks, a last-write-wins element set and an
  observed-remove set, changed in place and merged between replicas, and the clock discipline
  of the sync protocol between phones and server.
- **Codecs with an outside meaning.** A hand-written SHA-256, a base64url codec, the 105-byte
  signed ticket payload, and the cutting of a growing event stream into frames.
- **Small protocols.** The offline gate scanner, gossip of check-ins between scanners, the
  fixed-window rate limiter, the reconnecting inventory socket, and dispute voting by separate
  SQL statements.

Objects that the source updates in place are classes whose methods are proved against a
function of the old state. The theorems are then about all runs of those functions: any number
of replicas, any interleaving, any splitting of the input. Loops over hash maps take their keys
in an arbitrary order.

`dafny verify dfyconfig.toml` checks the whole project. Each file holds one module; `Bytes` holds
the typed-array conversions that the codecs share, `Sha256Spec` the standard the hash is proved
against, and `Options` a value that may be absent.

## Where the code does not do what its documentation says

Each of these has a lemma with a concrete run, and one that says exactly when the code does meet
the promise.

- The sync endpoint means to return the mutations a client has not seen. Its filter withholds
  those that come strictly after the client's clock, so a new client gets nothing
  (`DeltaSync.UnseenDeltaIsMissed`, `DeltaSync.FilterMatchesUnseenExactly`,
  `DeltaSync.SkippedExactlyWhenClientIsInHistory`). What one answer withholds the next brings
  (`SyncRounds.WithheldComesWithNextAnswer`).
- Taking an answer in empties the whole queue of a client, with what was queued since the request
  (`SyncRounds.MutationDuringRoundIsLost`, `SyncRounds.MutationIsKeptIff`).
- Overlapping sync requests can make the server clock go back (`Causality.ServerCanForget`,
  `Causality.WriteBackForgetsNothingIff`).
- An add and a removal of one value at one timestamp do not resolve the same way locally and on
  merge (`LwwElementSets.TieIsDecidedByOrder`,
  `LwwElementSets.WritesDetermineMembershipIffNotTied`), and stored clocks do not converge
  (`LwwElementSets.ClocksDoNotConverge`, `LwwElementSets.ClocksConvergeIff`).
- The observed-remove set keeps no tombstones, so a removal does not survive a merge
  (`OrSets.RemovedValueReturns`, `OrSets.RemovalIsForgotten`). The expectations in
  server/src/crdt/tests.rs lines 418-430 and 450-474 differ from the merge code; the model follows
  the code.
- A ticket payload outlives the two windows its documentation promises
  (`TicketPayload.OutlivesTwoWindows`; `TicketPayload.Lifetime` gives the exact lifetime).
- Two check-ins can share a record id. The later one then replaces the earlier, and a flush of the
  earlier can delete the later (`BleMesh.SecondCheckInReplacesFirst`,
  `BleMesh.LateFlushDropsSecond`, `BleMesh.CheckInSurvivesIff`).
- The event stream can report a position after it has reported closing
  (`WaitingRoomStreams.PositionAfterClosed`, `WaitingRoomStreams.ClosedIsLastIffRestSilent`).
- The inventory socket can report a connection it no longer has
  (`InventorySockets.ConnectedWithoutSocket`, `InventorySockets.TruthfulThroughoutIff`).
- A vote in flight can reopen a resolved dispute (`Governance.ResolvedDisputeReopens`,
  `Governance.ResolutionIsFinalIffNoneArmed`).

## Model

| member | source | states |
|---|---|---|
| `Causality.HappenedBeforeIsCausality` | apps/mobile/lib/syncEngine.ts:136-147 | In every run of mutations, clock deliveries and unlocked server write-backs, the stamp of one mutation is before that of another iff the first lies in the causal history of the second; stamps are concurrent iff neither does; distinct mutations never share a stamp |
| `Causality.EntriesBounded` | server/src/crdt/vector_clock.rs:30-45 | No clock entry runs ahead of the mutations that node has made, and a node's own entry equals them |
| `Causality.EntryDecidesKnown` | server/src/crdt/vector_clock.rs:30-45 | A mutation is known to a node iff its rank among its author's mutations is at most the author's entry in the node's clock |
| `Causality.KnownIsBelow` | server/src/crdt/vector_clock.rs:36-45 | Whoever knows a mutation holds a clock at least as large as its stamp |
| `Causality.KnownIffCovered` | server/src/crdt/vector_clock.rs:49-79 | A node knows a mutation iff its clock covers the mutation's stamp |
| `Causality.EntryIsCountOfKnown` | apps/mobile/lib/syncEngine.ts:254-257 | Each clock entry is the number of that node's mutations in the holder's causal history |
| `Causality.KnowledgeIsClockOrder` | server/src/crdt/vector_clock.rs:49-74 | One clock is below another iff everything known at the first is known at the second, for any two nodes at any two times |
| `Causality.HistoryIsTransitive` | server/src/crdt/vector_clock.rs:77-79 | Causal histories are closed: what a known mutation knew is known |
| `Causality.ServerCanForget` | server/src/handlers/sync.rs:83-101 | Two overlapping requests make the server clock drop a mutation it had known (concrete run) |
| `Causality.KnowledgeGrowsWithoutOverlap` | server/src/handlers/sync.rs:83-101 | If the write-back starts from the clock of that moment, no node forgets anything and clocks only grow |
| `Causality.WriteBackForgetsNothingIff` | server/src/handlers/sync.rs:83-101 | Of two consecutive write-backs the second loses nothing the server knew, and its clock does not go back, iff its request read the clock after the first had written it or its two snapshots already cover those of the first |
| `Causality.FirstWriteBackForgetsNothing` | server/src/handlers/sync.rs:83-101 | The first write-back has nothing to lose |
| `VectorClocks.VectorClock.constructor` | server/src/crdt/vector_clock.rs:16-20 | A new clock names exactly the given node |
| `VectorClocks.VectorClock.Increment` | server/src/crdt/vector_clock.rs:30-33 | The clock becomes strictly later, by one in the own entry, and no other entry changes |
| `VectorClocks.Merge` | server/src/crdt/vector_clock.rs:36-45 | The loop, in any key order, computes the entry-wise join |
| `VectorClocks.Compare` | server/src/crdt/vector_clock.rs:49-74 | -1, 1 or 0 as self is strictly below, strictly above or neither, for any order of the key union |
| `VectorClocks.HappenedBefore` | server/src/crdt/vector_clock.rs:77-79 | True iff strictly below under default-zero lookup |
| `VectorClocks.IsConcurrent` | server/src/crdt/vector_clock.rs:82-84 | True iff neither clock is below the other |
| `VectorClocks.Equals` | server/src/crdt/vector_clock.rs:87-100 | True iff all entries agree under default-zero lookup, absent ones included |
| `VectorClocks.JoinIsLeastUpperBound` | server/src/crdt/vector_clock.rs:36-45 | The join covers both clocks, and lies below a third iff both do |
| `VectorClocks.BeforeIsStrictPartialOrder` | server/src/crdt/vector_clock.rs:77-79 | Happened-before is irreflexive, asymmetric, transitive and compatible with equality |
| `VectorClocks.ExactlyOneRelation` | server/src/crdt/vector_clock.rs:49-100 | Any two clocks are in exactly one of the relations before, after, equal and concurrent; comparing is antisymmetric |
| `DeltaSync.ComputeServerDeltas` | server/src/handlers/sync.rs:118-141 | Both loops together return each node's selection once, in stored order within a node, for some order of the nodes |
| `DeltaSync.SelectedExactly` | server/src/handlers/sync.rs:126-137 | A delta is selected iff it is stored and its clock is before or concurrent with the client's |
| `DeltaSync.FilterMatchesUnseenExactly` | server/src/handlers/sync.rs:117-136 | The filter agrees with "not yet seen" iff neither clock is strictly before the other; an unseen delta is sent iff it is not strictly after the client's clock, a seen one is sent again iff the clocks differ |
| `DeltaSync.SkippedExactlyWhenClientIsInHistory` | server/src/handlers/sync.rs:132-136 | An unseen mutation is withheld iff all the client knows lies in that mutation's history |
| `DeltaSync.ReturnedExactly` | server/src/handlers/sync.rs:118-141 | The returned list holds a delta iff some node stores it and it passes the filter |
| `DeltaSync.SelectedPositions` | server/src/handlers/sync.rs:126-137 | A selection reads exactly the positions whose clock passes the filter, each once, in ascending order |
| `DeltaSync.ReturnedIsSelection` | server/src/handlers/sync.rs:118-141 | The returned list is one such selection from all that is stored, node after node, so repetition and order are those of the store |
| `DeltaSync.FreshClientGetsNothing` | server/src/handlers/sync.rs:118-141 | For a client that knows nothing the returned list is empty, whatever stamped deltas are stored |
| `DeltaSync.UnseenDeltaIsMissed` | server/src/handlers/sync.rs:118-141 | Concrete run, a retry after a lost response: another client's mutation that the server knows and the retrying client does not is not in the returned list |
| `SyncRounds.WithheldComesWithNextAnswer` | apps/mobile/lib/syncEngine.ts:205-285 | In every run with lost answers and retries: what the store held when a client's last answer was made is strictly before its next request and is in every answer to it, so all that the store held one answer earlier has been received; an answer holds exactly what of the store passes the filter |
| `SyncRounds.RunsAreSound` | server/src/handlers/sync.rs:83-101 | The server clock covers the store, and each client's clock covers what it queued and what the store held at its last answer, strictly once it queues again |
| `SyncRounds.MutationIsKeptIff` | apps/mobile/lib/syncEngine.ts:281-284 | A queued mutation is at every later point still queued or stored iff it was not queued while a request was under way whose round then ended by taking an answer in |
| `SyncRounds.MutationDuringRoundIsLost` | apps/mobile/lib/syncEngine.ts:281-284 | Concrete run: a mutation queued between request and answer is neither queued nor stored afterwards |
| `SyncRounds.WhereMadeEntryIs` | apps/mobile/lib/syncEngine.ts:205-285 | At every point of a run a mutation is safe, waiting behind a request without it, or gone, as the steps since it was queued say |
| `DeltaSync.SyncEngine.QueueMutation` | apps/mobile/lib/syncEngine.ts:136-147 | The stamp is the clock with the own entry one higher, strictly after the old clock |
| `DeltaSync.SyncEngine.ProcessSyncResponse` | apps/mobile/lib/syncEngine.ts:254-257 | The local clock becomes its join with the server's |
| `DeltaSync.SyncState.Exchange` | server/src/handlers/sync.rs:83-114 | The answer holds the clock before the request and the join; the join is stored |
| `LwwElementSets.Convergence` | server/src/crdt/lww_element_set.rs:128-180 | Merging the same reachable replica states in any order, grouping or repetition gives the same timestamp and flag at every key, the same membership and the same size |
| `LwwElementSets.OutcomeIsJoin` | server/src/crdt/lww_element_set.rs:154-180 | Any such merging leaves each key with the greatest (timestamp, add over remove) among the replicas |
| `LwwElementSets.MergeRefinesJoin` | server/src/crdt/lww_element_set.rs:154-180 | One merge leaves the lexicographic maximum at every key and keys of one side unchanged |
| `LwwElementSets.MergedElementIsGreater` | server/src/crdt/lww_element_set.rs:159-175 | The branches on timestamp, clock and flag keep the greater mark of two shaped elements; the newer element is kept whole, and at a tie the add |
| `LwwElementSets.JoinIsUnique` | server/src/crdt/lww_element_set.rs:154-180 | A set of visible states has at most one join |
| `LwwElementSets.ReachableShaped` | server/src/crdt/lww_element_set.rs:38-180 | In every run over any replicas, each stored clock is nonempty with all counters 1 and each tombstone's clock names exactly one node |
| `LwwElementSets.OrderOfShaped` | server/src/crdt/vector_clock.rs:49-74 | Between such clocks, being below is inclusion of node names, and only an add's clock can compare greater |
| `LwwElementSets.TombstoneNeverGreater` | server/src/crdt/lww_element_set.rs:163-173 | A tombstone's clock never compares greater than another element's |
| `LwwElementSets.ValuesConverge` | server/src/crdt/lww_element_set.rs:138-146 | With distinct keys for distinct values, the listed values converge too |
| `LwwElementSets.ClocksAgreeIff` | server/src/crdt/lww_element_set.rs:159-175 | Merging two elements each way leaves equal clocks iff their timestamps differ or one clock covers the other |
| `LwwElementSets.ClocksConvergeIff` | server/src/crdt/lww_element_set.rs:154-180 | Merging two states each way leaves equal clocks at every key iff no key is held on both sides at one timestamp with concurrent clocks |
| `LwwElementSets.ReachableClocksConvergeIff` | server/src/crdt/lww_element_set.rs:154-180 | On reachable states: iff at every such key the node names of one clock are among those of the other |
| `LwwElementSets.ClocksDoNotConverge` | server/src/crdt/lww_element_set.rs:163-173 | Two replicas, each having added one value at one time, whose clocks differ after merging each way: a tie keeps the local clock unmerged |
| `LwwElementSets.WriteTakesIffNewer` | server/src/crdt/lww_element_set.rs:38-125 | On reachable states a local write takes effect iff the key is absent or the timestamp strictly newer; otherwise nothing changes, and no mark goes down |
| `LwwElementSets.Monotonicity` | server/src/crdt/lww_element_set.rs:38-180 | Over every run without a clear no key disappears and no (timestamp, flag) decreases, so a stale add never revives a tombstone |
| `LwwElementSets.LastWriteWins` | server/src/crdt/lww_element_set.rs:38-180 | A key is present iff it was written, and shows the timestamp and flag of one of its latest writes, local or merged in |
| `LwwElementSets.ReplayKeepsLatest` | server/src/crdt/lww_element_set.rs:38-125 | Replaying older or equal writes leaves a stored mark alone |
| `LwwElementSets.WritesDetermineMembershipIffNotTied` | server/src/crdt/lww_element_set.rs:38-180 | Replicas holding the same writes must agree on a key iff its latest writes are not an add and a removal at one timestamp |
| `LwwElementSets.TieIsDecidedByOrder` | server/src/crdt/lww_element_set.rs:38-125 | Concrete pasts: the same add and removal at one timestamp, written in either order, end in different membership |
| `LwwElementSets.LwwElementSet.Add` | server/src/crdt/lww_element_set.rs:38-80 | The state after an add, over all four branches: a newer or first write stores the element, an older one changes nothing, other keys stay |
| `LwwElementSets.LwwElementSet.Remove` | server/src/crdt/lww_element_set.rs:83-125 | The same for a removal, which leaves a tombstone |
| `LwwElementSets.LwwElementSet.Write` | server/src/crdt/lww_element_set.rs:38-125 | Adding and removing share their branches and differ in the stored flag |
| `LwwElementSets.LwwElementSet.Has` | server/src/crdt/lww_element_set.rs:128-135 | True iff the key is stored with an add |
| `LwwElementSets.LwwElementSet.Values` | server/src/crdt/lww_element_set.rs:138-146 | The values of exactly the added keys, each key once |
| `LwwElementSets.LwwElementSet.Size` | server/src/crdt/lww_element_set.rs:149-151 | The number of added keys |
| `LwwElementSets.LwwElementSet.Merge` | server/src/crdt/lww_element_set.rs:154-180 | The in-place loop, in any key order, leaves the key-wise merge and the other set untouched |
| `LwwElementSets.LwwElementSet.Clear` | server/src/crdt/lww_element_set.rs:183-185 | Nothing is stored |
| `OrSets.RunsAreSound` | server/src/crdt/or_set.rs:39-147 | In every run with fresh tag ids every stored element of every replica has a tag, no id twice, and only tags of adds of that very value |
| `OrSets.EqualIdsEqualTags` | server/src/crdt/or_set.rs:39-51 | Equal ids mean equal tags and the same value, on all replicas |
| `OrSets.MergeIsUnion` | server/src/crdt/or_set.rs:112-147 | Merging sound states is the exact per-key union of tags, keeps all keys of both sides (the empty-tags branch never runs) and stays sound |
| `OrSets.PlanIsUnion` | server/src/crdt/or_set.rs:112-147 | After any merging a tag is under a key iff some merged state had it there |
| `OrSets.Convergence` | server/src/crdt/or_set.rs:83-147 | Merging the same states in any order, grouping or repetition gives the same tags at every key and the same membership |
| `OrSets.RemovalIsForgotten` | server/src/crdt/or_set.rs:77-125 | In every run, from a point where a replica lacks a key and until it removes it again, the key is there iff the replica added it or merged in a state that held it, and its tags are exactly those of these adds and states |
| `OrSets.MemberIffBrought` | server/src/crdt/or_set.rs:83-90 | In every run, from a point where a replica lacks a value and until it removes it again, it is a member iff the replica added it or merged in a state that held it |
| `OrSets.MembersAreStored` | server/src/crdt/or_set.rs:83-109 | In every run the members are exactly the stored keys |
| `OrSets.RemovedValueReturns` | server/src/crdt/or_set.rs:77-125 | Concrete run: added, merged by a peer, removed, and back after merging the peer, with the tag of the first add |
| `OrSets.MergeTags` | server/src/crdt/or_set.rs:128-147 | The result lists the merged tag table, each id once, in some order |
| `OrSets.CollectedAt` | server/src/crdt/or_set.rs:128-147 | For any two lists of distinct ids: a tag on both sides has the join of its two clocks, a tag on one side is as it was, and no other is there |
| `OrSets.OrSet.Add` | server/src/crdt/or_set.rs:59-74 | A tag with the given id, the node and its clock at 1 is appended to a known key, or a new element holds just it; other keys stay |
| `OrSets.OrSet.Remove` | server/src/crdt/or_set.rs:77-80 | The key is dropped and nothing else |
| `OrSets.OrSet.Has` | server/src/crdt/or_set.rs:83-90 | True iff the key is a member: stored with some tag |
| `OrSets.OrSet.Size` | server/src/crdt/or_set.rs:104-109 | The number of members |
| `OrSets.OrSet.Merge` | server/src/crdt/or_set.rs:112-125 | At every key, for any key order: kept, taken over, tags merged, or dropped when no tag is left; a value held before is kept |
| `Sha256Js.Sha256Hex` | apps/mobile/utils/sha256.ts:63-130 | For every byte message under 2^53 bits the loops compute the hexadecimal SHA-256 digest of FIPS 180-4 (sections 5.1.1, 5.2.1, 5.3.3 and 6.2.2) |
| `Sha256Js.Pad` | apps/mobile/utils/sha256.ts:65-74 | The buffer is the padded message of section 5.1.1 with the 64-bit length, written as two 32-bit stores |
| `Sha256Js.FillSchedule` | apps/mobile/utils/sha256.ts:80-87 | The 64 words are the message schedule of the block, wide signed sums included |
| `Sha256Js.RoundAgrees` | apps/mobile/utils/sha256.ts:98-112 | One round on signed intermediates and wide sums cut by `>>> 0` is one round of the standard modulo 2^32 |
| `Sha256Js.CompressBlock` | apps/mobile/utils/sha256.ts:89-122 | 64 rounds and the eight additions give the next hash value of section 6.2.2 |
| `Sha256Js.RotateIsRotr` | apps/mobile/utils/sha256.ts:30-32 | The signed rotation is the rotation of the standard |
| `Sha256Js.WideSum` | apps/mobile/utils/sha256.ts:86-101 | Cutting a wide or negative sum to 32 bits is addition modulo 2^32 |
| `Sha256Js.PaddedNumeral` | apps/mobile/utils/sha256.ts:125-129 | The shortest numeral padded with zeros is the fixed-width one |
| `Sha256Js.HexReadsBack` | apps/mobile/utils/sha256.ts:125-129 | Read as a hexadecimal numeral, each printed word denotes its number |
| `Sha256Bits.ScheduleEquations` | apps/mobile/utils/sha256.ts:80-87 | The first sixteen words are the block, each later one the sum modulo 2^32 of two earlier words and the sigmas of two others |
| `Sha256Bits.RoundEquations` | apps/mobile/utils/sha256.ts:98-113 | A round moves six words along and makes two new ones, given as sums modulo 2^32 |
| `Sha256Bits.RotrRotates` | apps/mobile/utils/sha256.ts:30-32 | Rotating brings the bits that leave on the right back on the left |
| `Sha256Bits.RotatedIsRotation` | apps/mobile/utils/sha256.ts:30-32 | For the ten amounts in use this is the rotation of a 32-bit register |
| `Sha256Bits.BigSigma0Rotates` | apps/mobile/utils/sha256.ts:102 | Rotations by 2, 13 and 22 |
| `Sha256Bits.BigSigma1Rotates` | apps/mobile/utils/sha256.ts:99 | Rotations by 6, 11 and 25 |
| `Sha256Bits.SmallSigma0Rotates` | apps/mobile/utils/sha256.ts:84 | Rotations by 7 and 18 and a shift by 3 |
| `Sha256Bits.SmallSigma1Rotates` | apps/mobile/utils/sha256.ts:85 | Rotations by 17 and 19 and a shift by 10 |
| `Sha256Bits.ChChooses` | apps/mobile/utils/sha256.ts:100 | Where the first word has a one the bit of the second, elsewhere that of the third |
| `Sha256Bits.MajIsMajority` | apps/mobile/utils/sha256.ts:103 | A one exactly where two of the three words have |
| `Sha256Spec.PaddingIsSmallest` | apps/mobile/utils/sha256.ts:67-68 | The padding has the smallest number of zero bits that leaves 64 bits of a block |
| `Sha256Constants.InitialHashIsSquareRoots` | apps/mobile/utils/sha256.ts:25-28 | The initial words hold the first 32 bits of the fractional parts of the square roots of the first eight primes |
| `Sha256Constants.RoundConstantsAreCubeRoots` | apps/mobile/utils/sha256.ts:14-23 | Each of the 64 round constants holds the first 32 bits of the fractional part of the cube root of the prime at its place in the table |
| `Sha256Constants.PrimesAreTheFirst` | apps/mobile/utils/sha256.ts:14-23 | The table is the first 64 primes: in order, and all the primes up to 311 |
| `Base64Url.RoundTrip` | apps/mobile/lib/crypto.ts:153-186 | Decoding an encoding gives the bytes back, for every byte string |
| `Base64Url.EncodesBitsInSixes` | apps/mobile/lib/crypto.ts:153-165 | Section 5 of RFC 4648: the letters spell the bits of the input, six at a time, and only the zero bits needed to fill the last letter |
| `Base64Url.ReencodesIffCanonical` | apps/mobile/lib/crypto.ts:172-186 | The decoder accepts any text; encoding its result gives the text back iff the text is canonical |
| `Base64Url.EncodedIsCanonical` | apps/mobile/lib/crypto.ts:153-165 | Every encoding is canonical: only letters of the alphabet, a possible length, no bits left over |
| `Base64Url.CanonicalRoundTrip` | apps/mobile/lib/crypto.ts:172-186 | Every canonical text is the encoding of its decoding |
| `Base64Url.ToBase64Url` | apps/mobile/lib/crypto.ts:153-165 | The loop and the stripping of `=` give the group-wise encoding |
| `Base64Url.FromBase64Url` | apps/mobile/lib/crypto.ts:172-186 | The loop decodes group by group, missing and foreign characters read as zero |
| `Base64Url.AlphabetIsTable` | apps/mobile/lib/crypto.ts:150-170 | The letters are those of the 64-letter string, in its order; any other character reads as zero |
| `Base64Url.DecodedLength` | apps/mobile/lib/crypto.ts:172-186 | How many bytes any text without padding decodes to; a stray last character makes two |
| `TicketPayload.ParseOfGenerated` | apps/mobile/lib/crypto.ts:201-272 | A generated payload parses to the same version, window timestamp, nonce, signature and signed bytes; the id field holds the id's bytes iff they are at most 16 and do not end in zero, and then the ticket id comes back if text decoding inverts its encoding |
| `TicketPayload.PayloadLayout` | apps/mobile/lib/crypto.ts:201-230 | Byte by byte, a generated payload is version 1, the window start, sixteen bytes of id, the nonce, and the signature of these 41 bytes |
| `TicketPayload.ParsedIff` | apps/mobile/lib/crypto.ts:248-272 | A text parses iff it decodes to 105 bytes with version 1, and to which fields |
| `TicketPayload.VerdictIff` | apps/mobile/lib/crypto.ts:289-319 | When each verdict is given, from the decoded bytes: accepted iff well formed, signature verified and within 75 s |
| `TicketPayload.Uint64IsBigEndian` | apps/mobile/lib/crypto.ts:142-146 | The value read is that of the eight bytes, most significant first |
| `TicketPayload.Lifetime` | apps/mobile/lib/crypto.ts:289-319 | With the matching key a payload is accepted iff the scanner's second is within 75 of the window start; so always within 60 s of generation, never more than 75 s after it or 89 s before it |
| `TicketPayload.OutlivesTwoWindows` | apps/mobile/lib/crypto.ts:193-196 | The documented limit of two windows does not hold: a payload is still accepted 75 s after its window began |
| `TicketPayload.FieldRoundTripIff` | apps/mobile/lib/crypto.ts:111-126 | A fixed field gives its bytes back iff they fit and do not end in a zero |
| `TicketPayload.Uint64RoundTrip` | apps/mobile/lib/crypto.ts:132-146 | Every value from 0 to 2^64 - 1 is read back as written |
| `TicketPayload.WriteUint64BE` | apps/mobile/lib/crypto.ts:132-137 | Eight bytes at the offset are the big-endian value, the rest of the buffer is unchanged |
| `TicketPayload.EncodeFixed` | apps/mobile/lib/crypto.ts:111-117 | The bytes are cut or zero-padded to the length |
| `TicketPayload.StripTrailingZeros` | apps/mobile/lib/crypto.ts:120-126 | The loop removes exactly the trailing zeros |
| `TicketPayload.GenerateRotatingPayload` | apps/mobile/lib/crypto.ts:201-230 | Fails iff the secret key is not 64 bytes; otherwise the encoded header and its signature |
| `TicketPayload.ParsePayload` | apps/mobile/lib/crypto.ts:248-272 | Fails on a wrong length, then on a wrong version; otherwise the five fields and the signed bytes |
| `TicketPayload.VerifyPayload` | apps/mobile/lib/crypto.ts:289-319 | Malformed, then bad key, then bad signature, then expired, then accepted, each exactly as `TicketPayload.VerdictIff` says |
| `OfflineScanners.AdmittedOnce` | apps/mobile/services/offlineScanner.ts:185-298 | Between clears a ticket is admitted at most once, whatever keys are added |
| `OfflineScanners.LogIsAdmissions` | apps/mobile/services/offlineScanner.ts:114-143 | The log holds exactly the tickets admitted since the last clear, each with its record of admission |
| `OfflineScanners.DuplicateShowsFirstRecord` | apps/mobile/services/offlineScanner.ts:240-249 | A refused duplicate shows the record of the one earlier admission |
| `OfflineScanners.VerifiedScanIsAdmittedOnce` | apps/mobile/services/offlineScanner.ts:185-266 | A verified payload is admitted iff its ticket was not admitted since the last clear, and a duplicate iff it was |
| `OfflineScanners.OutcomeIff` | apps/mobile/services/offlineScanner.ts:185-266 | When each outcome is given, from the decoded bytes, the keys and the log: admitted iff well formed, registered, signed, in time and not in the log; with the two times of the record |
| `OfflineScanners.KeysAreLatest` | apps/mobile/services/offlineScanner.ts:296-298 | The key in force is the last one added for the ticket, or the one the gate was built with |
| `OfflineScanners.OtherOutcomesKeepLog` | apps/mobile/services/offlineScanner.ts:185-266 | Every other outcome leaves the log unchanged, and verification never calls a parsed payload malformed |
| `OfflineScanners.GenuineTicketIsAdmitted` | apps/mobile/services/offlineScanner.ts:185-266 | From phone to gate: a genuine payload shown within a minute to a gate with the matching key is admitted unless its ticket already was |
| `OfflineScanners.OfflineScanner.constructor` | apps/mobile/services/offlineScanner.ts:168-177 | Every listed key is decoded; the log is empty |
| `OfflineScanners.OfflineScanner.Scan` | apps/mobile/services/offlineScanner.ts:185-266 | The outcome by the source's order of refusals; only an admission changes the log |
| `OfflineScanners.OfflineScanner.AddPublicKey` | apps/mobile/services/offlineScanner.ts:296-298 | One key is set, nothing else changes |
| `OfflineScanners.OfflineScanner.ClearScanLog` | apps/mobile/services/offlineScanner.ts:278-280 | The log is empty, the keys are kept |
| `RateLimiters.AllowedInAnyStretch` | apps/web/lib/rate-limit.ts:47-66 | In any half-open stretch of one window's length a key has at most 2 * limit - 1 allowed calls, none if the limit is zero |
| `RateLimiters.BoundIsReached` | apps/web/lib/rate-limit.ts:47-66 | That bound is reached for every positive limit and every window of at least 2 ms |
| `RateLimiters.SweepingIsInvisible` | apps/web/lib/rate-limit.ts:38-48 | Every answer is that of a limiter that never sweeps |
| `RateLimiters.AllowedPerWindow` | apps/web/lib/rate-limit.ts:50-57 | In each window the first `limit` calls of a key are allowed and no others |
| `RateLimiters.AllowedIffFewEarlier` | apps/web/lib/rate-limit.ts:50-57 | A call is allowed iff fewer than `limit` calls of its key came before it in its window |
| `RateLimiters.CountIsCallsIn` | apps/web/lib/rate-limit.ts:50-56 | The stored count is the number of calls in the current window, and no call lies in a later one |
| `RateLimiters.AnswerTells` | apps/web/lib/rate-limit.ts:58-65 | The remaining calls of the window, its end, and the whole seconds until then, rounded up and at least one |
| `RateLimiters.WindowOpensWithFirstCall` | apps/web/lib/rate-limit.ts:50-54 | Every window opens with its first call and lasts exactly `windowMs` |
| `RateLimiters.SweptOnlyWhenLarge` | apps/web/lib/rate-limit.ts:48 | With at most 10000 entries none is deleted; with more, only live entries remain |
| `RateLimiters.WithinBound` | apps/web/lib/rate-limit.ts:47-66 | How many calls can have been allowed in a stretch, given the current window |
| `RateLimiters.RateLimiter.Sweep` | apps/web/lib/rate-limit.ts:38-42 | Exactly the expired entries are deleted |
| `RateLimiters.RateLimiter.Check` | apps/web/lib/rate-limit.ts:47-66 | The new entries and the whole answer |
| `RateLimiters.RateLimiter.Reset` | apps/web/lib/rate-limit.ts:67-69 | No entries |
| `WaitingRoomStreams.ChunkingIndependence` | apps/mobile/services/waitingRoom.ts:214-238 | However a growing text is split into events, the frames handled are those of the whole text and the buffer is its unfinished end, without a separator |
| `WaitingRoomStreams.CutIsUnique` | apps/mobile/services/waitingRoom.ts:220-237 | A text can be cut into separator-free frames in exactly one way, the one found |
| `WaitingRoomStreams.FramesCut` | apps/mobile/services/waitingRoom.ts:220-237 | The leftmost cut loses and invents no character |
| `WaitingRoomStreams.CutInTwoSteps` | apps/mobile/services/waitingRoom.ts:214-238 | Cutting a prefix first and its remainder with the rest later gives the same frames and remainder |
| `WaitingRoomStreams.ClosedAtMostOnce` | apps/mobile/services/waitingRoom.ts:177-181 | In every run closing is announced at most once, and iff the reader is finished |
| `WaitingRoomStreams.LogOfRun` | apps/mobile/services/waitingRoom.ts:177-250 | In every run the callbacks are what the frames and failures say, in order, with closing right behind what the first ending one says, or not at all |
| `WaitingRoomStreams.ClosedIsLastIffRestSilent` | apps/mobile/services/waitingRoom.ts:177-250 | In every finished run closing is the last callback iff nothing behind the first ending frame or event, in the same chunk or later, makes a callback |
| `WaitingRoomStreams.SignalsAreTheText` | apps/mobile/services/waitingRoom.ts:214-238 | However a growing text arrives, the messages handled are those of the frames of the whole text |
| `WaitingRoomStreams.SignalsCaseByCase` | apps/mobile/services/waitingRoom.ts:183-250 | What each kind of message, a failure and the end of loading say, and which of them end the stream |
| `WaitingRoomStreams.PositionAfterClosed` | apps/mobile/services/waitingRoom.ts:183-237 | Any chunk of an admission frame and a position frame reports the position after closing |
| `WaitingRoomStreams.WaitingRoomStream.Finish` | apps/mobile/services/waitingRoom.ts:177-181 | Closing is announced unless it was |
| `WaitingRoomStreams.WaitingRoomStream.HandleMessage` | apps/mobile/services/waitingRoom.ts:183-212 | The callbacks and flag of each kind of message |
| `WaitingRoomStreams.WaitingRoomStream.Drain` | apps/mobile/services/waitingRoom.ts:220-237 | The loop ends, having handled every complete frame of the buffer |
| `WaitingRoomStreams.WaitingRoomStream.ConsumeChunk` | apps/mobile/services/waitingRoom.ts:214-238 | Exactly the text beyond the cursor is taken in and drained |
| `WaitingRoomStreams.WaitingRoomStream.OnLoad` | apps/mobile/services/waitingRoom.ts:243-246 | A last chunk, then finished |
| `WaitingRoomStreams.WaitingRoomStream.OnNetworkError` | apps/mobile/services/waitingRoom.ts:247-250 | An error callback, then finished |
| `BleMesh.NothingIsLost` | apps/mobile/services/bleMeshService.ts:91-160 | With distinct ids every check-in has been accepted as itself or is still held by its scanner exactly as made |
| `BleMesh.CheckInSurvivesIff` | apps/mobile/services/bleMeshService.ts:91-160 | Without that assumption: a check-in is held as made or accepted as itself iff the server got that very check-in, or it was made and not displaced since by another check-in under its id or by a flush that had posted another record under it |
| `BleMesh.HeldAsMadeIff` | apps/mobile/services/bleMeshService.ts:91-160 | A scanner holds a check-in as made iff it made it and since then neither gave its id to another nor got the id back from a flush |
| `BleMesh.SecondCheckInReplacesFirst` | apps/mobile/services/bleMeshService.ts:91-102 | Concrete run: a second check-in of one ticket in one millisecond replaces the first, which is neither held nor accepted |
| `BleMesh.LateFlushDropsSecond` | apps/mobile/services/bleMeshService.ts:152-160 | Concrete run: a flush that posted the first deletes the second, which was never posted |
| `BleMesh.IdsCanCoincide` | apps/mobile/services/bleMeshService.ts:93 | Ids of different scanners and tickets can be equal |
| `BleMesh.IdsDiffer` | apps/mobile/services/bleMeshService.ts:93 | Ids of check-ins that differ in just one of scanner, ticket and time are different |
| `BleMesh.RelayEndsAtSix` | apps/mobile/services/bleMeshService.ts:133-139 | Passed on from scanner to scanner, a check-in reaches the sixth with six hops and the seventh does not take it |
| `BleMesh.HeldRecordsAreGenuine` | apps/mobile/services/bleMeshService.ts:133-139 | Every held record equals an earlier check-in in all fields but the hops |
| `BleMesh.HopsCountPulls` | apps/mobile/services/bleMeshService.ts:133-139 | The hops of a held record are the length of a chain of pulls that carried it from its scanner, and at most 6 |
| `BleMesh.AcceptedAreGenuine` | apps/mobile/services/bleMeshService.ts:152-160 | Every accepted record equals an earlier check-in in all fields but the hops |
| `BleMesh.MergeOfServedIsPull` | apps/mobile/services/bleMeshService.ts:133-139 | Merging a served log, in any order and with repetitions, is one and the same pull |
| `BleMesh.HowHeld` | apps/mobile/services/bleMeshService.ts:91-160 | A held record was just made here, was already here, or was just pulled with one more hop |
| `BleMesh.BleMeshService.RecordCheckIn` | apps/mobile/services/bleMeshService.ts:91-102 | The record is stored under its id |
| `BleMesh.BleMeshService.MergeIncoming` | apps/mobile/services/bleMeshService.ts:133-139 | The loop over the records is their left-to-right merge |
| `BleMesh.BleMeshService.FinishFlush` | apps/mobile/services/bleMeshService.ts:152-160 | Exactly the reported ids are deleted |
| `InventorySockets.RunsAreSound` | apps/mobile/utils/websocket.ts:170-293 | In every reachable state there is at most one live socket and one pending timer, each the one held; between the first connect and close there is one or the other; the delays since the last open are the backoff schedule |
| `InventorySockets.SoundIsKept` | apps/mobile/utils/websocket.ts:189-293 | Every event keeps that invariant |
| `InventorySockets.ClosedIsFinal` | apps/mobile/utils/websocket.ts:269-293 | After close nothing is opened or scheduled again and the status stays closed |
| `InventorySockets.RetryDelays` | apps/mobile/utils/websocket.ts:255-266 | The k-th retry in a row waits min(1000 * 2^k, 30000) ms |
| `InventorySockets.DelaysCountRetries` | apps/mobile/utils/websocket.ts:211-266 | The attempt count is the number of timers set since the last open, read off the events |
| `InventorySockets.OpenStartsOver` | apps/mobile/utils/websocket.ts:211-266 | A drop right after an open waits one second, however many retries came before |
| `InventorySockets.StatusTells` | apps/mobile/utils/websocket.ts:189-293 | In every reachable state the status is idle before the first connect, closed after close, reconnecting iff a retry was scheduled since the last open, and else connecting or connected |
| `InventorySockets.BackoffSchedule` | apps/mobile/utils/websocket.ts:78-81 | 1, 2, 4, 8, 16 seconds, then 30 for good |
| `InventorySockets.StatusGoesStaleIff` | apps/mobile/utils/websocket.ts:229-256 | One event makes the reported status wrong iff a connected socket drops while a timer is pending |
| `InventorySockets.TruthfulThroughoutIff` | apps/mobile/utils/websocket.ts:189-266 | The reported status is right at every point of a run iff no connected socket drops while a timer is pending |
| `InventorySockets.ConnectedWithoutSocket` | apps/mobile/utils/websocket.ts:229-256 | Concrete run that ends reporting connected without a socket |
| `InventorySockets.PatientRunsAreTruthful` | apps/mobile/utils/websocket.ts:189-266 | If nobody connects by hand while a timer is pending, socket and timer never coexist and the status is right |
| `InventorySockets.InventorySocket.Connect` | apps/mobile/utils/websocket.ts:189-237 | Nothing if there is a socket or close was called; else one socket, or a retry if creation throws |
| `InventorySockets.InventorySocket.OnOpen` | apps/mobile/utils/websocket.ts:211-215 | The attempt count is zero and the status connected; socket and timers stay |
| `InventorySockets.InventorySocket.OnClose` | apps/mobile/utils/websocket.ts:229-236 | The socket is gone; a retry is scheduled unless closed by hand |
| `InventorySockets.InventorySocket.ScheduleReconnect` | apps/mobile/utils/websocket.ts:255-266 | At most one timer, with the delay of this attempt |
| `InventorySockets.InventorySocket.OnTimer` | apps/mobile/utils/websocket.ts:262-265 | The timer is cleared, then connect |
| `InventorySockets.InventorySocket.Close` | apps/mobile/utils/websocket.ts:269-293 | Timer cancelled, socket detached, status closed |
| `Governance.VotesAreConserved` | server/src/handlers/governance.rs:225-270 | At every point of any interleaving of single statements each side's counter plus the calls that inserted but have not counted equals that side's vote rows |
| `Governance.ConservedByStep` | server/src/handlers/governance.rs:225-270 | Each single statement keeps that balance |
| `Governance.TalliesMatchRows` | server/src/handlers/governance.rs:200-273 | From an opened dispute the balance holds throughout, and with no call in flight the counters are the row counts |
| `Governance.ResolutionIsFinalIffNoneArmed` | server/src/handlers/governance.rs:200-329 | A resolved dispute keeps status and ruling, whatever statements follow, iff no call in flight read it as open with its vote still to be announced, or decided otherwise |
| `Governance.ResolvedDisputeReopens` | server/src/handlers/governance.rs:252-257 | Concrete interleaving: a late vote sets a resolved dispute back to voting with its ruling kept |
| `Governance.UnarmedStaysPut` | server/src/handlers/governance.rs:200-329 | With no such call, each statement keeps status, ruling and the absence of such calls |
| `Governance.ArmedCanChange` | server/src/handlers/governance.rs:252-329 | Any such call, left to run, changes status or ruling |
| `Governance.HandlersAreConsistent` | server/src/handlers/governance.rs:200-329 | With handlers one at a time, tallies are exact, a ruling exists iff resolved, and it is the one that tallies and quorum demand |
| `Governance.RulingFollowsVotes` | server/src/handlers/governance.rs:276-329 | With handlers one at a time, a resolved dispute is ruled for the buyer iff the buyers' rows exceed 3n/10 rounded up, and for the organizer otherwise; status and ruling agree |
| `Governance.ResolutionIsFinalInTurn` | server/src/handlers/governance.rs:200-329 | With handlers one at a time, nothing changes after a resolution |
| `Governance.StatementsMakeVote` | server/src/handlers/governance.rs:200-273 | The statements of one vote without interruption are the whole handler |
| `Governance.StatementsMakeSettlement` | server/src/handlers/governance.rs:276-329 | The same for resolving |
| `Governance.QuorumIsCeiling` | server/src/handlers/governance.rs:307 | The threshold is 3n/10 rounded up |
| `Governance.DisputeStore.CastVote` | server/src/handlers/governance.rs:200-273 | The outcome of every branch; on success the row and the counter of the named side, and of no other, and the status; no change otherwise |
| `Governance.DisputeStore.ResolveDispute` | server/src/handlers/governance.rs:276-329 | The outcome of every branch; on success status and ruling by the buyers' counter against 3n/10; no change otherwise |

## Left out

- VectorClocks.VectorClock.Increment: does not model the overflow of a 64-bit counter.
- Governance.DisputeStore.CastVote: does not model the overflow of a 32-bit tally; ids are numbers instead of UUIDs.
- Governance.DisputeStore.ResolveDispute: the time of resolution and the update timestamp are not stored.
- Governance.QuorumIsCeiling: the floating-point product with 0.30 is taken as exactly 3n/10; for 32-bit n its rounding error is too small to change the ceiling.
- Governance.TalliesMatchRows: a call whose later statement fails stays in flight for good, so its row stays uncounted, as in the source.
- LwwElementSets.LwwElementSet.Add: the timestamp is an argument; reading the system clock when none is given is not modelled.
- LwwElementSets.LwwElementSet.Merge: merging a set into itself is excluded, as Rust's borrow rules exclude it.
- LwwElementSets.ValuesConverge: JSON text is a parameter, and only this lemma needs distinct values to have distinct texts.
- OrSets.OrSet.Add: the tag id is an argument, and the runs assume that no two adds draw the same one.
- OrSets.OrSet.Merge: merging a set into itself is excluded, as Rust's borrow rules exclude it.
- OrSets: listing the values and clearing are not modelled; neither adds a property to those of membership and size.
- Causality: the TypeScript copies of the replicated types are not modelled.
- SyncRounds.MutationIsKeptIff: the caps of 1000 on queued and on stored deltas are not modelled; queue and store are sets of entries, so their order and the skipping of repeated ids do not show.
- SyncRounds.WithheldComesWithNextAnswer: requests are served one at a time, and a request given up by its client is not served later.
- Sha256Js.Sha256Hex: starts from the UTF-8 bytes; text encoding is not modelled. Doubles are exact integers, as all values stay below 2^53.
- Base64Url.ToBase64Url: shifts, masks and disjoint ors are written as arithmetic, and the alphabet by its ranges instead of a string.
- TicketPayload.ParsePayload: a timestamp field above 2^53, which no generator writes, is read exactly, while a double would round it.
- TicketPayload.Lifetime: Ed25519 and text encoding are function parameters; the lemma assumes that a matching key verifies what its secret key signed. Unforgeability is not stated.
- TicketPayload.GenerateRotatingPayload: the nonce is an argument in place of the random source.
- OfflineScanners.OfflineScanner.Scan: scans run one at a time; the race of two concurrent scans across the awaits of the store is not modelled, nor are the messages for staff and the sorted listing of the log.
- RateLimiters.RateLimiter.Check: times are whole milliseconds and the limit is a whole number.
- RateLimiters.SweepingIsInvisible: assumes a clock that never goes back and a positive window; resets between calls are not part of the runs.
- WaitingRoomStreams.WaitingRoomStream.HandleMessage: parsing of `data:` lines and JSON is a function parameter; the arguments of callbacks are not kept, and callbacks are taken to return normally.
- WaitingRoomStreams.ChunkingIndependence: assumes that the response text only grows, as it does until the request is aborted.
- BleMesh.BleMeshService.FinishFlush: connectivity checks, the posting of the batch and Bluetooth itself are steps of the environment.
- InventorySockets.RunsAreSound: callbacks of the application do not call back into the socket; message parsing, inventory updates and the subscription frame are not modelled.
- HTTP routing, authentication, pagination, Redis, SQL text, notifications, user interface, wallets, Soroban calls, proof-of-work solving, geographic search and pricing helpers are not part of this model.

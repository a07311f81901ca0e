# bora: a verified model

bora is the block transport of a peer-to-peer streaming client. It cuts blocks into fragments of 1400
bytes, paces and prioritises them over UDP, acknowledges each with a count of the fragments held just
below it, retransmits what seems lost and reassembles blocks on the other side. This project models that
core in Dafny, in the shipped configuration (retransmission and timeouts on, random drop off), and proves
what it keeps, over all inputs and all runs.

    dafny verify dfyconfig.toml

## The parts

- `Basics` types, constants, flag bits, time. `NetEncoder` the wire format. `Framing` the trailers
  put on by the sender and taken off by the receiver, and the receiver's dispatch on a datagram.
- `BlockSpec` the operations of the block cache on values; `Reassembly` what streams of them do;
  `CacheRuns` what runs with deletions keep; `BlockCache` the cache with its buffers and flag arrays updated
  in place, tied to `BlockSpec`.
- `NackSpec` the unacknowledged lists on values; `NackProps` their invariant and theorems; `NackTable` the
  lists updated in place; `SList` the pointer surgery under them; `AckMeaning` what their operations mean in
  fragment numbers and microseconds; `AckReceiver` the handling of an accepted acknowledgement and the
  statistics; `AckTimes` what these mean in the times of a run.
- `Protocol` sender, lossy, reordering and duplicating network, and receivers as a step system built from
  the operations above, down to the bytes of the datagrams; `ProtocolProofs` safety over whole runs;
  `ProtocolExact` what each step does, exactly;
  `Delivery` what the upper layers of the receivers see of a run; `GoneFragments` and `FirstAckLoss` what
  becomes of a fragment that is nowhere any more, and a run that shows why one of the accounts is needed.
- `RingQueue` a send ring; `SendQueues` send_data and the choice of the next packet on three rings;
  `Scheduler` the sender thread and concurrent send_data calls as a step system; `SchedulerProofs` its
  invariant and theorems; `SchedulerChoice` which packet goes next. `BoundedBuffer` the two rings between
  receiving threads.

## What turned out not to hold

Each of these has a theorem that says exactly when the expected behaviour does hold.

- A configured NAT port of 256 or more makes every fragment and acknowledgement unreadable
  (`Framing.FragmentRoundTrip`, `Framing.AckTrip`): the receiver takes the first port byte for a port and
  strips two bytes more than were added.
- get_block_data returns a block padded with zeros when its last, short fragment arrived first
  (`Reassembly.EndToEnd`), which is always so for a block of one short fragment
  (`Reassembly.SingleFragmentPadded`). The header comment promises NULL for an incomplete block
  (blockcache.h, line 91); the code returns its bytes, and so does the model.
- deleteblock never deletes the newest block (`BlockSpec.DeleteExact`).
- A peer's first acknowledgement discards older packets without resending them
  (`AckReceiver.ResentIffKnown`), and a fragment so discarded whose datagram is lost never arrives
  (`FirstAckLoss.LostForGood`, `GoneFragments.GoneForGood`).
- A retransmitted cookie is never acknowledged (`Framing.CookieRetransmissionUnanswered`), and an outstanding
  cookie can be cancelled by an acknowledgement of block 0 of stream 0 (`AckMeaning.CookieCancelIff`).
- A raw message that follows a fragment to the same host gets the mark of a pair and is lost
  (`Framing.RawTrip`, `SchedulerChoice.RawAfterBlockIsLost`).
- Every cookie sent takes a token from a queued packet. As many packets as cookies were ever sent stay behind
  whenever the sender runs out of announced ones (`SchedulerProofs.CookiesStrandPackets`,
  `SchedulerProofs.BacklogNeverShrinks`), and they wait until the next send_data call, whose token then goes to
  the oldest of them (`SchedulerProofs.CookieStall`, `SchedulerProofs.StallLasts`, `SchedulerProofs.StallEnds`).
- An acknowledgement can pop the wrong packet once a later packet to the same peer has the same 16-bit
  number, or an earlier one has it and the answered packet is no longer outstanding, and only then
  (`NackProps.PopsAnotherIff`, `NackProps.PopsAnsweredIff`, `NackProps.StaleSeqnoPopsAnother`). The protocol
  theorems speak of runs in which no acknowledgement that is taken up misleads in this way (`Protocol.Clear`);
  `ProtocolProofs.MispopIff` and `ProtocolProofs.NoReuseIsClear` say what that means.

## Modelling choices

- A packet is its flag byte as a bit vector and the rest of its bytes; its length is their number. An
  address is an IPv4 address and a port.
- `Entry.serial` and the serial of a datagram count transmissions without wrapping. They name packets in
  statements; no step reads them.
- Clocks, bandwidth, results of sendto, arrival, loss, semaphore races and the indeterminate content of
  fresh memory are inputs of the steps. A failed sendto is a loss. Sizes of counters other than those
  that matter (16-bit sequence numbers, counts and ids, 64-bit microseconds) are unbounded.
- `BlockCache` and `Protocol` demand of a fragment what the C code needs to stay inside its arrays: an
  index below the count, and at most 1400 bytes; sendblock and get_consecutives likewise.
  `ProtocolProofs.ReceiversInRange` shows that in the protocol these hold in every reachable state.
- The protocol has one sender and any number of receivers, each with its own byte order and all with NAT
  port 0. A receiver's acknowledgement goes straight to the network, which may lose it; that covers a
  full priority queue at the receiver.
- The factor 1.2 of the retransmission timeout is exact and rounded down.

## Model

| member | source | states |
|---|---|---|
| `Basics.TimeRoundTrip` | bora_util.c:4-19 | a 64-bit microsecond count converted to a timeval and back is unchanged |
| `Basics.TimeOrder` | bora_util.c:4-10 | on times that fit 64 bits, comparing timevals and comparing microseconds agree, and subtraction gives the difference, so the two ways ack.c compares times are consistent |
| `Basics.MicrosOf` | bora_util.c:4-10 | on normal times timercmp compares and timersub subtracts microseconds, whatever the order of the two times |
| `NetEncoder.DecodeInvertsEncode` | netencoder.c:98-139 | decoding an encoded fragment gives it back, and get_fragment_id reads its identity |
| `NetEncoder.EncodeInvertsDecode` | netencoder.c:113-139 | every packet that decodes is the encoding of what it decodes to |
| `NetEncoder.HeaderFields` | netencoder.c:98-111 | the fields of a fragment are at the offsets of the packed header, in network order |
| `NetEncoder.EncodeFragment` | netencoder.c:98-111 | the buffer written field by field is the packet of the fragment |
| `NetEncoder.AckRoundTrip` | netencoder.c:141-178 | an acknowledgement decodes to its sequence number, time and count whatever the byte orders of the two hosts, because the receiver echoes the bytes of the sequence number |
| `NetEncoder.ToInt32Is` | netencoder.c:166-178 | the seconds and microseconds of an acknowledgement become the signed 32-bit numbers that agree with them modulo 2 to the 32 |
| `NetEncoder.AckFields` | netencoder.c:141-164 | the fields of an acknowledgement are at their offsets, the number in the order of the host and the rest in network order |
| `NetEncoder.ValidAckIff` | netencoder.c:48-56 | validate_ack accepts exactly the packets the three calls can build |
| `NetEncoder.BuildAck` | netencoder.c:141-164 | encode_ack, append_ack_cons and append_ack_ts together write the acknowledgement packet |
| `Framing.PairMark` | packet_sender.c:168-170 | the consecutive mark is the only change to the flags on the way out, and it is made only when asked for |
| `Framing.RetransmissionMark` | ack.c:171-174 | the update before a retransmission clears the consecutive mark, sets the retransmission mark and leaves every other flag and byte |
| `Framing.ValidIff` | netencoder.c:68-92 | validate_block accepts exactly the encodings of fragments whose flags are nothing but need-ack, block and the two marks, and cookies |
| `Framing.ValidWire` | netencoder.c:68-92 | the validator accepts an encoded fragment and rejects it when two bytes are missing |
| `Framing.FragmentRoundTrip` | packet_receiver.c:78-109 | through append_ack, consecutive mark, port, stripping, validation and decoding a fragment and its sequence number come back, if and only if the NAT port is below 256 |
| `Framing.DeliveredBelow256` | packet_receiver.c:83-109 | with a NAT port below 256 the receiver gets the fragment and echoes the sequence number |
| `Framing.LostFrom256` | packet_receiver.c:85-90 | with a NAT port of 256 or more two bytes too many are stripped and nothing is received |
| `Framing.AckTrip` | packet_receiver.c:119-126 | an acknowledgement comes back to its sender with the chosen sequence number, if and only if the NAT port is below 256; otherwise nothing is received |
| `Framing.RawTrip` | packet_receiver.c:76-81 | a raw message comes out raw, unchanged, if and only if it is longer than 3 bytes and is not the second packet of a pair; as the second of a pair nothing comes out |
| `Framing.RetransmissionsKeepFragment` | ack.c:171-174 | any number of retransmissions leaves the same fragment wanting an acknowledgement, marked retransmitted and not consecutive |
| `Framing.RetransmittedRoundTrip` | ack.c:59-71 | after any number of retransmissions the fragment still makes the trip, in a datagram of unchanged length, because the saved copy has no trailers |
| `Framing.RetransmissionStaysValid` | netencoder.c:74-90 | of the valid packets that want an acknowledgement exactly the cookie becomes invalid when retransmitted |
| `Framing.AnsweredIffValid` | packet_receiver.c:94-117 | a packet that wants an acknowledgement is acknowledged if and only if it is valid without its trailers |
| `Framing.CookieRetransmissionUnanswered` | ack.c:172-175 | a cookie is acknowledged on its first transmission and on no later one |
| `BlockSpec.CalcFragmentsExact` | blockcache.c:72-88 | fragment count and last length account for every byte if and only if the block has 1 to 65535 * 1400 bytes, 16-bit and signed truncation included |
| `BlockSpec.ConsecutivesExact` | blockcache.c:325-342 | get_consecutives reports the whole run held just below the fragment: all of it is held and the next one down is not |
| `BlockSpec.AddFragmentExact` | blockcache.c:150-214 | addfragment takes a fragment if and only if it is not held, agrees with the stored count and fills its slot, then holds exactly it in addition; otherwise the cache is unchanged and the code says which of these failed |
| `BlockSpec.NewestIsHead` | blockcache.c:109-118 | a new block is put in front of all others, so that deleteblock refuses the newest |
| `BlockSpec.AddFragmentKeepsWf` | blockcache.c:150-214 | addfragment keeps every missing fragment's slot inside the buffer and content.length inside the buffer |
| `BlockSpec.AddKeepsKeysUnique` | blockcache.c:90-121 | addblock and addfragment never put a key into the cache twice |
| `BlockSpec.DeleteKeepsKeysUnique` | blockcache.c:123-148 | deleteblock keeps keys unique |
| `BlockSpec.DeleteExact` | blockcache.c:123-148 | deleteblock succeeds if and only if the block is there and is not the head, removes exactly that block, and never empties a cache |
| `BlockSpec.ListsPartition` | blockcache.c:270-323 | the complete and the incomplete list partition the cache |
| `BlockSpec.ListsKeepOrder` | blockcache.c:284-293 | the lists are in cache order |
| `CacheRuns.CacheAlwaysOk` | blockcache.c:90-214 | in every run of addblock, addfragment and deleteblock keys stay unique, every missing fragment has its slot and no length reaches outside a buffer |
| `CacheRuns.StepKeepsBlock` | blockcache.c:123-148 | a block and all it holds survive an operation if and only if it is not a deleteblock of that block while it is behind another |
| `CacheRuns.KeptUntilDeleted` | blockcache.c:150-214 | over every run a block not asked to be deleted stays, with its fragment count and everything it held |
| `CacheRuns.NeverEmptied` | blockcache.c:128-145 | over every run a cache that has held a block is never empty again, whatever is deleted |
| `Reassembly.FilledStep` | blockcache.c:208-209 | storing a payload turns the buffer of one set of held fragments into that of the next |
| `Reassembly.FirstBlockReceived` | blockcache.c:154-185 | the block made for a first fragment holds that fragment's bytes and zeros elsewhere |
| `Reassembly.FillBlockReceived` | blockcache.c:186-213 | a further fragment keeps held slots with their bytes and unheld slots zero |
| `Reassembly.DeliverEffect` | packet_receiver.c:162-192 | delivering a fragment changes only its block, leaves it held, keeps the reassembly invariant, and notifies exactly when this fragment fills the last gap |
| `Reassembly.HeldGrows` | blockcache.c:187-209 | a held fragment stays held |
| `Reassembly.RunState` | blockcache.c:150-214 | in every run over any mix of blocks, the state of each block and the number of notifications follow from which operation on it came first and which fragments have come |
| `Reassembly.CompleteIffAllCame` | blockcache.c:48-70 | a received block is complete if and only if all its fragments have come, in any order and number |
| `Reassembly.CompletionAnnouncedOnce` | packet_receiver.c:184-191 | completion is announced exactly once for a block completed from fragments, never otherwise and never for a block put in by addblock |
| `Reassembly.EndToEnd` | blockcache.c:150-228 | once all fragments have come the buffer holds the original bytes then zeros; get_block_data returns the original if and only if the last fragment was not first to arrive or is full, else the original padded with zeros |
| `Reassembly.SingleFragmentPadded` | blockcache.c:163-172 | a received block of one short fragment is always returned padded to the MTU |
| `Reassembly.OriginalSends` | blockcache.c:230-258 | sendblock of a block put in by addblock emits its pieces in order with the right ids, counts and lengths |
| `Reassembly.CompleteSends` | blockcache.c:237-246 | sendblock of a complete received block emits those same pieces |
| `Reassembly.RelayTransparent` | blockcache.c:230-258 | re-sending a block completed from fragments emits the same fragments as its origin, whatever the order of arrival |
| `Reassembly.OrderIndependent` | blockcache.c:154-213 | flags, bytes and last length of a complete block do not depend on order or repetition of arrivals |
| `BlockCache.Cache.FindBlock` | blockcache.c:22-45 | finds the first block with the key |
| `BlockCache.Cache.BlockComplete` | blockcache.c:48-64 | the scan from the last flag down decides completeness |
| `BlockCache.Cache.IsComplete` | blockcache.c:66-70 | reports complete for a complete block and also for a block that is not there |
| `BlockCache.Cache.AddBlock` | blockcache.c:90-121 | the cache afterwards is that of the value-level addblock; a present key changes nothing |
| `BlockCache.Cache.DeleteBlock` | blockcache.c:123-148 | the cache afterwards is that of the value-level deleteblock |
| `BlockCache.Cache.AddFragment` | blockcache.c:150-214 | cache and result code are those of the value-level addfragment, in every branch |
| `BlockCache.Cache.Fill` | blockcache.c:203-209 | the slot, flag, last length and content length of one block change and nothing else |
| `BlockCache.CachedBlock.Store` | blockcache.c:203-209 | flag, payload and, for the last fragment, the lengths are those of the value-level block |
| `BlockCache.Cache.GetBlockData` | blockcache.c:216-228 | returns the first content.length bytes of a present block, complete or not |
| `BlockCache.Cache.SendBlock` | blockcache.c:230-258 | hands every fragment of the block to send_data in order, wanting acknowledgement |
| `BlockCache.Cache.GetConsecutives` | blockcache.c:325-342 | returns the whole run of held fragments just below the given one: all are held, and the next one down is not |
| `BlockCache.Cache.ListBlocks` | blockcache.c:270-323 | returns the keys of the complete or incomplete blocks in cache order |
| `NackSpec.ResendsAll` | ack.c:169-175 | when every entry wants an acknowledgement each is handed to send_data once, marked, in list order |
| `NackSpec.AppendMembers` | ack.c:45-71 | append_ack adds exactly the new entry |
| `NackSpec.AppendPeers` | ack.c:50-57 | a peer without a list gets one in front of the others, whose order stays |
| `NackSpec.PopMembers` | ack.c:73-94 | pop_ack removes at most the entry it returns, which is the sender's and has the number |
| `NackSpec.FilterPeerMembers` | ack.c:111-158 | the removal loops remove only entries of the acknowledging peer that satisfy their test |
| `NackSpec.SweepMembers` | ack.c:185-212 | the timeout sweep removes only expired entries |
| `NackProps.StepKeepsInv` | ack.c:45-212 | every operation keeps the invariant: own address, need-ack bit, own serial, newest first; by send time too when the clock does not go back |
| `NackProps.RunKeepsInv` | ack.c:45-212 | the invariant holds in every state any run of operations reaches |
| `NackProps.SeqnosDistinct` | ack.c:50-64 | when all outstanding entries were made within the last 65536 appends, the 16-bit numbers of any two of them, of the same or of different peers, are distinct |
| `NackProps.SerialsDistinct` | ack.c:50-64 | no two outstanding entries of the whole table were made by the same append |
| `NackProps.PopsNewest` | ack.c:73-94 | pop_ack returns the newest outstanding packet of the peer with the number, and nothing if and only if there is none |
| `NackProps.PopsAnotherIff` | ack.c:83-91 | the acknowledgement of any packet, outstanding or not, pops another one if and only if a newer outstanding packet of the peer has its number, or an older one while the packet itself is no longer outstanding |
| `NackProps.RecentNeverMisleads` | ack.c:50-64 | neither is the case while the packet and all outstanding entries were made within the last 65536 appends |
| `NackProps.PopsAnsweredIff` | ack.c:73-94 | the acknowledgement of an outstanding packet pops that packet if and only if nothing sent to the same peer after it has the same 16-bit number |
| `NackProps.PopRemovesOne` | ack.c:83-91 | pop_ack removes exactly the entry it returns and keeps every other entry of every peer |
| `NackProps.PopExact` | ack.c:73-94 | within the last 65536 appends the acknowledgement of a packet pops exactly that packet and keeps all others |
| `NackProps.EveryEntryCanBeShadowed` | ack.c:50-64 | from every table whose entries are all recent, for every outstanding entry, a run with a clock that does not go back after which its acknowledgement pops another packet |
| `NackProps.StaleSeqnoPopsAnother` | ack.c:83-91 | a run from the start in which the acknowledgement of one packet pops another: one packet outstanding, 65535 sent to another peer, one more to the first |
| `NackProps.AckRefinesFilter` | ack_received.c:149-168 | on the known-peer path exactly the not older entries stay, in order; exactly the older ones outside the run go to send_data, once, marked, in order; no other peer is touched; every entry is accounted for once |
| `NackProps.EveryEntryOnce` | ack.c:131-183 | survivors, cancelled and resent entries together are the old list |
| `NackProps.AckCutsTail` | ack.c:119-125 | as the list is ordered by send time, an acknowledgement cuts off its tail |
| `NackProps.SweepPartitions` | ack.c:185-212 | what stays has not expired, what expired is gone and was handed to send_data once, marked, in order, and the counts add up |
| `NackProps.NoEarlyResend` | ack.c:196-207 | with a timeout of at least 10000 nothing expires within 10000 microseconds of being sent |
| `AckMeaning.CancelExact` | ack.c:131-158 | an outstanding fragment is cancelled if and only if it went to the acknowledging peer before fragment i of the same block and its number j satisfies i - cons <= j < i |
| `AckMeaning.CookieCancelIff` | ack.c:143-147 | a cookie has no fragment number and is cancelled if and only if it is older than an acknowledged fragment of block 0 of stream 0 whose reported run reaches the start; the acknowledgement of a cookie cancels nothing |
| `AckMeaning.SurvivesIff` | ack.c:119-125 | after an acknowledgement, on either path, an outstanding packet is still there if and only if it went to another peer or was not sent before the acknowledged one, in microseconds |
| `AckMeaning.ResentIff` | ack.c:160-183 | a packet goes to send_data if and only if it is the marked copy of an outstanding one of the peer that was sent before the acknowledged one and is not in the reported run |
| `AckMeaning.SweepByAge` | ack.c:185-212 | a sweep leaves a packet if and only if its age in microseconds is at most the timeout of its peer |
| `AckMeaning.TimedOutIff` | ack.c:196-207 | a sweep hands a packet to send_data if and only if it is the marked copy of an outstanding one older than the timeout of its peer |
| `NackTable.WalkList` | ack.c:119-125 | the in-place removal walk leaves the filtered list, counts what it dropped and hands it to send_data in order |
| `NackTable.NackLists.AppendAck` | ack.c:45-71 | the counter wraps at 16 bits and the packet is saved without trailers at the head of its peer's list |
| `NackTable.NackLists.PopAck` | ack.c:73-94 | returns and removes the first entry with the number in the sender's list |
| `NackTable.NackLists.RemoveOooNacks` | ack.c:111-129 | removes and counts the older entries |
| `NackTable.NackLists.RemoveLostAcks` | ack.c:131-158 | removes exactly the peer's entries sent before the acknowledged one whose fragment is one of the cons just below it in the same block; always returns 0 |
| `NackTable.NackLists.ResendOooNacks` | ack.c:160-183 | removes, counts and hands to send_data the older entries |
| `NackTable.NackLists.ResendTimeoutNacks` | ack.c:185-212 | the nested walk over peers and entries leaves exactly the entries not older than their peer's timeout, and counts and hands to send_data the others |
| `NackTable.NackLists.GetNNack` | ack.c:214-226 | counts all outstanding entries |
| `SList.List.InsertHead` | queue.h:185-188 | the node is in front and the list stays chained |
| `SList.List.Remove` | queue.h:192-203 | exactly the given node is unlinked, after a search for its predecessor |
| `SList.List.RemoveWhere` | queue.h:166-207 | FOREACH_SAFE with REMOVE on pointers leaves the filtered list |
| `AckReceiver.AckBook.AckReceived` | ack_received.c:67-183 | table, statistics, highest number and resent packets are those of the value-level step, cancel before resend; the record goes to the cookie code exactly for a packet with the flags of a cookie |
| `AckReceiver.AckBook.ReleaseAckStore` | ack_received.c:190-198 | the running counters start over and nothing else changes |
| `AckReceiver.AckBook.ResendTimeouts` | ack_received.c:55-65 | the sweep with each peer's own timeout leaves exactly the packets not older than it |
| `AckReceiver.ResentIffKnown` | ack_received.c:73-76 | an older entry outside the run is resent if and only if its peer has acknowledged before; on a first acknowledgement nothing is resent |
| `AckReceiver.ErrorsAreResends` | ack_received.c:155-168 | total_errors grows by exactly the number of packets resent and total_acked by one |
| `AckReceiver.CountsOverRuns` | ack_received.c:146-168 | over every run a peer's counters are exactly the packets its acknowledgements caused to be resent and the acknowledgements accepted from it, since the start and since the last release |
| `AckReceiver.StatsOverRuns` | ack_received.c:83-148 | over every run a peer's stored records are exactly those of its accepted acknowledgements, newest first; the minima are the least trip times among them and the current values those of the latest |
| `AckReceiver.ErrorTimesOverRuns` | ack_received.c:113-168 | over every run the times kept with a peer's last error are those of the record that was its latest when one of its acknowledgements last caused a resend |
| `AckReceiver.HighestOverRuns` | ack_received.c:103-109 | over every run highest_seq is the record with the largest number among all acknowledgements accepted since the last release |
| `AckReceiver.CookieReportedIff` | ack_received.c:177-179 | the cookie code hears of a cookie when its first transmission is acknowledged, not of a retransmission and never of a fragment |
| `AckTimes.EntryFromSend` | ack.c:45-71 | over every run each outstanding entry has the packet, time, sleep and wrapped number of the send that made it |
| `AckTimes.RecordsDescribeTrips` | ack_received.c:83-90 | over every run a peer's records are those of its acknowledged packets in order: number, send time and sleep of the packet as sent, round trip received minus sent, single trip stamped minus sent |
| `AckTimes.StatsAreTripTimes` | ack_received.c:118-143 | over every run minRTT and minSTT are the least round and single trip of a peer's acknowledged packets, and the current values and lastRTT those of the latest |
| `AckTimes.SweepTakesOverdue` | ack_received.c:55-65 | over every run a sweep removes and resends a packet if and only if its age exceeds 10000 microseconds and 1.2 times the latest round trip of its peer, or 0 for a peer that never acknowledged anything |
| `AckReceiver.TimeoutNotEarly` | ack_received.c:55-65 | nothing of a known peer times out within 10000 microseconds of being sent |
| `ProtocolProofs.ParsedData` | packet_receiver.c:94-109 | what a receiver parses from a transmitted packet is its fragment and its sequence number |
| `ProtocolProofs.ParsedAck` | packet_receiver.c:119-126 | what the sender parses from an acknowledgement is the number it chose and the receiver's count |
| `ProtocolProofs.AckTruthful` | packet_receiver.c:104-109 | an acknowledgement is sent only with its fragment in hand and reports a run the receiver holds |
| `ProtocolProofs.StepKeeps` | ack_received.c:67-177 | every step of sender, network and receivers keeps the protocol invariant |
| `ProtocolProofs.NoSilentLoss` | packet_sender.c:317-364 | in every state of every run each accepted fragment is queued, in hand, unacknowledged, at the peer, or on record as dropped by a full queue or discarded on a first acknowledgement |
| `ProtocolProofs.CancelledAreHeld` | ack.c:131-158 | what remove_lost_acks would cancel in any state of the invariant, the peer holds |
| `ProtocolProofs.CancellationSound` | ack.c:131-158 | in every run an entry cancelled without resending is held by the peer |
| `ProtocolProofs.PopSound` | ack.c:73-94 | in every run an acknowledgement pops the packet it answers and that fragment is at the peer |
| `ProtocolProofs.MispopIff` | ack.c:73-94 | in every state a run reaches, an acknowledgement taken up pops another packet than it answers if and only if its 16-bit number misleads, which is the condition on runs |
| `ProtocolExact.AckReportsWholeRun` | packet_receiver.c:104-109 | in every run a fragment that arrives is answered with one acknowledgement, which reports the whole run the receiver holds below it at that moment, no less and no more |
| `ProtocolExact.CancelStepExact` | ack.c:131-158 | in every run the cancelling step removes a packet if and only if it was sent before the acknowledged one and carries one of the cons fragments just below it for the same peer |
| `ProtocolExact.RunStaysCancelled` | ack.c:131-158 | in every run no packet of the cancelled run that was on the list then is on it in any later state |
| `ProtocolExact.RequeueSkipsRun` | ack_received.c:149-158 | in every run the following resend hands on no packet of the cancelled run that was on the list then |
| `ProtocolExact.TransmitExact` | packet_sender.c:164-176 | in every run a transmission adds one entry, the packet in hand with its send time and the next serial, and sends it under that number |
| `ProtocolExact.AckEndsExact` | ack.c:160-183 | in every run the last step of an acknowledgement removes a packet if and only if it went to the same peer and was sent before the acknowledged one |
| `ProtocolExact.TimeoutStepExact` | ack.c:185-212 | in every run a sweep removes a packet if and only if it is older than its peer's timeout |
| `ProtocolExact.CancelThenRequeue` | ack_received.c:149-158 | in every run an acknowledgement that has cancelled its run goes on to resend, with no other taken up in between |
| `ProtocolExact.FirstAckOnce` | ack_received.c:72-76 | in every run the discarding branch is taken once for a peer, at its first accepted acknowledgement, and the resending branch only after that |
| `ProtocolExact.RunByKind` | packet_sender.c:323-363 | in every run retransmissions wait in their queue and everything else in the send queue, within the rings |
| `ProtocolExact.SendBlockSubmits` | blockcache.c:230-258 | the packets sendblock hands on for a block are those the protocol submits |
| `ProtocolExact.SubmitExact` | packet_sender.c:317-364 | in every run a fragment is accepted if and only if a token is free and the send queue has room, and is then its last packet |
| `ProtocolExact.HandedOnIsQueued` | packet_sender.c:337-349 | in every run with tokens and room, packets taken off the list are queued in order and none is dropped |
| `ProtocolExact.DropIsRefusal` | packet_sender.c:317-349 | in every run a fragment is accounted as dropped only by a requeueing step that filled the queue or found no token for a packet with it |
| `ProtocolExact.DiscardExact` | ack_received.c:72-76 | in every run a fragment is accounted as discarded if and only if its peer's first acknowledgement takes a packet with it, sent before the acknowledged one, off the list |
| `ProtocolProofs.NoReuseIsClear` | ack.c:50-64 | the condition on runs holds whenever no outstanding entry and no datagram is 65536 or more transmissions old |
| `ProtocolProofs.ReceiversInRange` | blockcache.c:150-214 | in every run the receivers stay inside their arrays and hold only parts of the original blocks |
| `ProtocolProofs.QuietMeansDelivered` | packet_receiver.c:162-192 | when a run has gone quiet, a block whose fragments were all accepted and none dropped or discarded is complete and byte-identical at the peer |
| `FirstAckLoss.LostForGood` | ack_received.c:73-76 | a run, for every block of at least two fragments, after which an accepted fragment, discarded on the peer's first acknowledgement, is in no queue, hand, list or datagram and not at the peer |
| `GoneFragments.StepKeepsGone` | ack_received.c:67-177 | no step of sender, network or receivers brings such a fragment back, except that it is handed to send_data again |
| `GoneFragments.GoneForGood` | ack_received.c:67-177 | in every run such a fragment never arrives in any later state unless it is handed to send_data again, and its block is never complete at the peer |
| `Delivery.ReceiverIsRun` | packet_receiver.c:162-192 | in every state of every run, cache and announcements of every receiver are what the stored fragments make of an empty one |
| `Delivery.AnnouncedIffComplete` | packet_receiver.c:184-191 | in every state of every run a receiver has announced a block once if it is complete there and not at all otherwise |
| `Delivery.CompleteReadsBack` | blockcache.c:216-258 | in every state of every run get_block_data of a complete block returns the original, padded exactly when its last fragment was stored first, and sendblock emits the original's fragments |
| `Delivery.QuietMeansAnnounced` | packet_receiver.c:162-192 | when a run has gone quiet, a block whose fragments were all accepted and none dropped or discarded has been announced exactly once and reads back as the original |
| `SchedulerProofs.StepKeeps` | packet_sender.c:81-287 | every step of the sender thread and of concurrent send_data calls keeps the scheduler invariant |
| `SchedulerProofs.NeverTakesFromEmpty` | packet_sender.c:131-158 | under any interleaving the sender never takes from an empty ring |
| `SchedulerProofs.TokensConserved` | packet_sender.c:384-385 | sFull, qEmpty and tokens in progress are always 6000, queued packets equal announced ones plus cookies sent, and rings stay within 2000 |
| `SchedulerProofs.CookiesStrandPackets` | packet_sender.c:126-129 | a waiting sender with nothing announced leaves as many packets queued as cookies were sent, so the queues are empty if and only if no cookie was sent |
| `SchedulerProofs.CookieStall` | packet_sender.c:100-129 | a reachable stall with a packet queued: the sender waits, nothing is announced and no send_data call is under way |
| `SchedulerProofs.StallLasts` | packet_sender.c:100-129 | in every continuation of a stall without a send_data call the sender cannot move, whatever cookies become due, and the queues do not change |
| `SchedulerProofs.StallEnds` | packet_sender.c:317-364 | the next send_data call ends the stall: with no cookie due and nothing of higher priority the sender takes the packet that waited longest, not the new one |
| `SchedulerProofs.StalledIffBacklog` | packet_sender.c:100-129 | with no send_data call under way a waiting sender is stalled if and only if no more packets are queued than cookies were ever sent |
| `SchedulerProofs.BacklogNeverShrinks` | packet_sender.c:126-129 | between two idle waits the backlog never shrinks and grows by exactly the cookies sent between them |
| `SchedulerProofs.PairsAreConsecutive` | packet_sender.c:249-268 | the second packet of a pair comes from the send ring and follows a successful fragment from the send ring to the same host |
| `SchedulerProofs.MarkedIffPaired` | packet_sender.c:168-170 | over every run of packets handed in unmarked, a datagram carries the consecutive mark if and only if it is the second of a pair, and the one before it is an unmarked block to the same host, sent without error |
| `SchedulerProofs.PacingExact` | packet_sender.c:240-283 | the sleep requested before a leader is 1500 plus the pace of every packet sent, and at most two packets go out between sleeps |
| `SchedulerProofs.PaceWithinOne` | packet_sender.c:160-163 | with constant bandwidth the total pace is below the exact byte time by less than a microsecond a packet |
| `SchedulerProofs.RateBound` | packet_sender.c:240-283 | over every run with constant bandwidth requested sleep and byte time differ by at most a microsecond a packet |
| `SchedulerProofs.QueuesAreFifo` | packet_sender.c:323-363 | nothing is lost, duplicated or reordered inside a queue |
| `SchedulerProofs.AtMostTwoBetweenSleeps` | packet_sender.c:240-283 | in every run at most two packets go out between two sleeps |
| `SchedulerChoice.QueuedByKind` | packet_sender.c:323-363 | in every run acknowledgements and bandwidth messages are put into the priority queue, other retransmissions into the retransmission queue and everything else into the send queue |
| `SchedulerChoice.InsertExact` | packet_sender.c:323-363 | in every run a send_data call puts its packet at the end of that queue if and only if there is room, and otherwise returns its token |
| `SchedulerChoice.TakesWhatIsThere` | packet_sender.c:131-158 | in every run the sender at a queue takes its oldest packet when there is one and else goes on to the next queue |
| `SchedulerChoice.TakenIsOldest` | packet_sender.c:131-158 | in every run a packet taken is the oldest of its queue and the other queues do not change |
| `SchedulerChoice.StrictPriority` | packet_sender.c:131-158 | in every run a packet is taken from the retransmission queue only after the priority queue was found empty, and from the send queue outside a pair only after both were |
| `SchedulerChoice.UrgentGoesNext` | packet_sender.c:131-138 | in every run a sender that wakes outside a pair with no cookie due takes next the packet at the head of the priority queue |
| `SchedulerChoice.CookieFirst` | packet_sender.c:126-129 | in every run a due cookie goes before every queue outside a pair |
| `SchedulerChoice.TwoCookiesEach` | cookie_sender.c:30-43 | in every run each send_cookie makes two cookies due and each goes out once |
| `SchedulerChoice.PairIsMade` | packet_sender.c:249-268 | in every run a packet for the host of the unpaired fragment just sent, at the head of the send queue, is the next packet sent, as the second of a pair |
| `SchedulerChoice.RawAfterBlockIsLost` | packet_sender.c:168-170 | in every run a raw message in that place goes out with the mark of a pair and is received as nothing |
| `RingQueue.Ring.Put` | packet_sender.c:325-334 | a packet is appended unless the ring is full |
| `RingQueue.Ring.Take` | packet_sender.c:152-158 | the oldest packet is removed |
| `RingQueue.Ring.Head` | packet_sender.c:251-253 | the oldest packet is read |
| `SendQueues.Sender.SendData` | packet_sender.c:317-364 | a packet is accepted if and only if a token is free and its ring has room; a refused packet changes nothing |
| `SendQueues.Sender.TakeNext` | packet_sender.c:131-158 | the oldest packet of the first non-empty queue in order of priority is taken |
| `SendQueues.SendIsItsSteps` | packet_sender.c:317-364 | undisturbed, the steps of a send_data call come to what send_data does |
| `SendQueues.SentByKind` | packet_sender.c:317-364 | after send_data the packet is the last of the queue its flags select, if a token is free and there is room; otherwise nothing has changed |
| `SendQueues.TakeIsItsSteps` | packet_sender.c:131-158 | undisturbed, the steps of the sender from its wait to the top of its loop come to taking the oldest packet of the first queue that is not empty |
| `BoundedBuffer.StepKeeps` | packet_receiver.c:40-82 | every step of producer and consumer keeps the ring invariant |
| `BoundedBuffer.RefinesQueue` | packet_receiver.c:217-221 | for every interleaving and ring size consumed items are a prefix of produced ones, and the threads are never in the same slot from the producer's wait until it has announced the slot or moved on |
| `BoundedBuffer.NoteRoundTrip` | biter_bridge.c:16-25 | a block notification is never taken for a raw message, and a stale datagram does no harm |
| `BoundedBuffer.NotesInOrder` | biter_bridge.c:12-26 | the upper layer reads exactly the first notifications made, in order |

## Left out

- bora.c apart from the notification consumer, main.c, spam.c, stats_bridge.c, bpuller_bridge.c, recv_stats.c, bw_stats.c and bw_msgs.c: bindings, socket set-up, counters and plumbing with only easy claims.
- Shutdown of the threads, which posts tokens with no packet behind them.
- The cookie handshake of cookie_sender.c: only its effect on scheduler tokens and its two-token post are modelled.
- The queue threshold that asks the upper layer for another block, and the idle-time statistics.
- Fragments that make the C code reach outside its arrays; the result code for an index out of bounds is behind such an access.
- Receivers that delete blocks, or put blocks in, while a protocol run is under way; cookies, raw messages and bandwidth messages inside the protocol step system.
- compute_average, which nothing calls.
- Liveness of the protocol: that a fragment is resent often enough to arrive.
- BoundedBuffer.RefinesQueue: the two thread loops are modelled as steps, not as methods, because they run concurrently; so is the sender thread in Scheduler.
- AckReceiver.AckBook.AckReceived: the statistics list of peers is a map; what the cookie code does with the record it gets is not modelled.

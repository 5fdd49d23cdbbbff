# Verified model of MOOR's protocols and data structures

MOOR is an onion router. This project models the parts of it whose correctness is hardest to see, and
proves what they are for:

- **Circuits** (`CircuitTable`, `CircuitPool`, `Onion`, `FlowControl`, `ReturnFlow`, `Guards`): the open-addressing
  index, the mark-then-close life cycle, layered encryption with running digests, authenticated SENDME
  windows, and the sampled, confirmed and primary guard lists.
- **Channels** (`Circuitmux`): the heap of circuits by decayed cell count with its back-pointers.
- **Conflux** (`Feistel`, `Conflux`): the permutation on sequence numbers and multi-path delivery through a
  bounded reorder buffer.
- **Descriptor lookup** (`Dpf`, `Pir`, `Responsible`): the distributed point function, two-server private
  retrieval, and who is responsible for a descriptor.
- **Links** (`Handshake`, `HandshakeIo`, `LinkRekey`): the Noise IK and KEM handshake in its blocking and
  asynchronous forms, and the implicit key ratchet.
- **Directory** (`Quorum`, `ConsensusBody`, `BandwidthWeights`): majority verification, the canonical signed
  body, and the bandwidth weights.
- **JSON** (`Json`, `JsonParser`, `JsonPrinter`, `JsonRoundTrip`): printer and parser, their buffers, and the
  round trip between them.

`Bytes`, `Octets`, `Counting` and `Options` hold what these share.

Code that updates state is modelled by classes and loops over arrays, proved against functions on values;
the properties of whole runs are lemmas about those functions. Hashes, stream ciphers, signatures, key
exchange and key derivation are parameters with only the laws each theorem names.

## Where the code does less than it says

The members named give the input or the run, and the exact condition under which the code meets the claim.

- A failed write at the exit leaves a data cell uncounted, so the client refuses every later SENDME and its
  window runs down for good (`FlowControl.WriteErrorSticks`). `FlowControl.StuckIff` says the circuit can come
  to a halt exactly if the exit missed a cell, `MissedIff` when it does, `QuietIff` when that shows. In the other
  direction a SENDME that the client fails to queue does the same (`ReturnFlow.SendmeLostSticks`,
  `ReturnStuckIff`).
- The bootstrap import tests the largest number of relays but not the size of the array, which holds 256 and is
  only grown by registration: the 257th relay is written beyond it (`ConsensusBody.ImportsTooMany`). `InsideIff`
  and `ImportsInsideIff` say exactly when an import, and a run of imports, stays inside.
- Registration replaces the first relay with the same identity or the same address and port, without comparing
  publication times. A relay that returns at another relay's address is then listed twice
  (`ConsensusBody.ListedTwice`, `KeepsDistinctIff`), and the order of arrival matters unless descriptors that
  clash say the same (`OrderFreeIff`). The bytes signed are determined by the relays exactly if no identity is
  listed with two bandwidths (`OneBodyIff`).
- A relay before the last may take a cell for its own by chance (`Onion.CanMisread`, `AllDeliveredIff`).
- A transmit notification sifts the heap only downward, so heap order between ticks can break
  (`Circuitmux.XmitCanBreakOrder`); `NotifyXmit` says exactly when. `Circuitmux.WrongPick` is a run in which a
  circuit that is not the quietest is picked.
- Unregistering a circuit removes its pairs without comparing the stored circuit
  (`CircuitPool.LostBinding`, `CircuitTable.UnregisterSparesOthers`).
- Joining at a rendezvous point does not look at existing partners: a second join and a release leave a pointer
  to a released circuit (`CircuitPool.StalePartner`, `ReleaseStaleIff`, `JoinKeepsPairs`).
- A lookup during a close may return a circuit that was cleaned up (`CircuitPool.FindsCleaned`,
  `FindsCleanedIff`).
- The comment on key fallback promises tolerance in both directions; a receiver behind the sender refuses,
  and refuses from then on (`LinkRekey.AcceptsIff`, `RefusedForGood`, `SenderFirst`).
- The comment in the post-quantum handshake says nonces are still 0 at its end; three cells each way leave
  them at 3 (`Handshake.EndsAgree`).
- "Full replication" in a small network stops after three relays (`Responsible.FullReplicationIff`), and which
  three depends on the order of the list (`SmallOrderIff`).
- A trusted key listed twice counts twice (`Quorum.RepeatedIdCountsTwice`, `CountsOnceIff`).
- A newly sampled guard inherits the path-bias record of its slot and may be disabled from the start
  (`Guards.DisabledFromStart`, `State.Sample`).
- Guard selection falls back to any reachable guard, disabled or not (`Guards.DisabledSelected`,
  `SelectsDisabledIff`).
- The JSON printer needs one byte more than text and terminator (`JsonPrinter.Printer.PrintValue`); a
  malformed `\u` escape decodes as code point 0 instead of failing (`JsonParser.Parser.ParseHex4`), and code
  point 0 ends the string (`JsonRoundTrip.CutAtNul`, `JsonParser.KeepsWholeIff`).

## Model

| member | source | states |
|---|---|---|
| CircuitTable.Table.Insert | src/circuit.c:128-147 | open-addressing insert refines a map: an absent live key is bound if there is room, a present one keeps its circuit, zero keys are refused; the returned flag says whether the key is now bound to this circuit |
| CircuitTable.Table.Lookup | src/circuit.c:149-159 | for any hash function, probing finds exactly the binding of the map, on a full table too |
| CircuitTable.Table.Remove | src/circuit.c:161-185 | removal with re-insertion of the following cluster takes exactly this key out of the map and leaves every other key reachable |
| CircuitTable.Table.Reinsert | src/circuit.c:170-182 | the re-insertion loop restores the probe invariant, keeps the map and terminates on every table, a completely full one included |
| CircuitTable.Table.Unregister | src/circuit.c:198-206 | drops exactly the live endpoint pairs of a circuit that has an id |
| CircuitTable.ProbeMisses | src/circuit.c:149-159 | a probe that reaches a free slot, or has seen every slot, proves the key absent from the map |
| CircuitTable.StoreRefines | src/circuit.c:128-147 | storing at the first free slot of the probe keeps the probe invariant and uniqueness |
| CircuitTable.RoomIffFree | src/circuit.c:128-147 | a table without free slots holds as many keys as slots, so refusal means full |
| CircuitTable.DisplacementOfUpdate | src/circuit.c:170-182 | how one slot update changes the total probe displacement, the termination measure of the repair |
| CircuitTable.RepairStep | src/circuit.c:170-182 | where re-insertion of the scanned entry puts it: into the hole if the hole is on its probe path, else back |
| CircuitTable.RepairMoved | src/circuit.c:170-182 | moving the entry into the hole keeps the map, makes its old slot the only hole and lowers the total displacement |
| CircuitTable.RepairKept | src/circuit.c:170-182 | an entry whose path avoids the hole stays, and the scan gets closer to the hole |
| CircuitTable.RepairDone | src/circuit.c:170-182 | when the scan meets a free slot every entry is reachable again |
| CircuitTable.UnregisterSparesOthers | src/circuit.c:198-206 | unregistering spares the bindings of other circuits if and only if none of the circuit's pairs is bound to another circuit |
| Circuitmux.Mux.Swap | src/channel.c:358-364 | exchanges two heap places and keeps heap and back-pointers inverse |
| Circuitmux.Mux.SiftUp | src/channel.c:366-378 | computes the sift-up of the counts and keeps heap and back-pointers inverse |
| Circuitmux.Mux.SiftDown | src/channel.c:380-403 | computes the sift-down of the counts and keeps heap and back-pointers inverse |
| Circuitmux.Mux.HeapInsert | src/channel.c:405-411 | the entry becomes active; if the heap was ordered it stays ordered |
| Circuitmux.Mux.HeapRemove | src/channel.c:413-425 | the entry leaves the heap; order holds after it if it held with some count for the removed entry |
| Circuitmux.Mux.RoomFor | src/channel.c:405-411 | an entry that is not in the heap always finds room, so the capacity guard of insertion never fires |
| Circuitmux.Mux.Scaled | src/channel.c:428-437 | decays one entry to the current tick |
| Circuitmux.OneTick | src/channel.c:428-437 | one tick multiplies the count by the scale once |
| Circuitmux.DecayComposes | src/channel.c:428-437 | decaying to one tick and then to another is decaying to the second, up to a hundred ticks |
| Circuitmux.DecayCapped | src/channel.c:431-434 | a longer absence costs no more than a hundred factors |
| Circuitmux.Mux.Attach | src/channel.c:440-464 | keeps the invariant (an entry is in the heap if and only if it has queued cells) and binds a slot to the circuit |
| Circuitmux.Mux.Detach | src/channel.c:466-487 | keeps the invariant, frees the circuit's entry, keeps order |
| Circuitmux.Mux.NotifyCells | src/channel.c:490-511 | keeps the invariant, adds queued cells, keeps order |
| Circuitmux.QueueComposes | src/channel.c:490-511 | cells queued in two lots are counted like cells queued in one, and never below none |
| Circuitmux.Mux.NotifyXmit | src/channel.c:539-567 | keeps the invariant; heap order survives if and only if the charged count is not below its parent's, since the code sifts only downward |
| Circuitmux.ChargeComposes | src/channel.c:539-567 | cells sent in two lots within a tick are charged like cells sent in one |
| Circuitmux.Mux.Rebuild | src/channel.c:520-533 | bottom-up rebuilding orders the heap whatever order it held before |
| Circuitmux.Mux.Pick | src/channel.c:514-536 | in a new tick the pick has the minimum decayed count of all active entries, whatever order the heap held before; in the same tick it does if the heap was ordered |
| Circuitmux.RisenIsHeap | src/channel.c:366-378 | sifting up repairs a heap that is wrong at one place towards its root |
| Circuitmux.SunkIsOrdered | src/channel.c:380-403 | sifting down repairs a heap that is wrong at one place towards its leaves |
| Circuitmux.RemovedIsRepaired | src/channel.c:413-425 | after the last element fills the gap, one sift down and one sift up restore the heap |
| Circuitmux.Replaced | src/channel.c:547-564 | a changed count followed by a sift down only is a heap if and only if the count is not below its parent's |
| Circuitmux.RootIsLeast | src/channel.c:534-535 | the root of a heap is a minimum |
| Circuitmux.XmitCanBreakOrder | src/channel.c:547-564 | a concrete heap and entry for which the transmit notification breaks heap order |
| Circuitmux.WrongPick | src/channel.c:440-567 | a run of attach, queue, transmit and pick on an empty mux of any size after which the pick has a larger count than another active circuit |
| Dpf.Gen | src/dht.c:823-921 | the two keys form a key pair for the target, for every generator and every two root seeds |
| Dpf.TreeInvariant | src/dht.c:823-1008 | off the path to the target both servers hold equal nodes, on the path their control bits differ |
| Dpf.PointFunction | src/dht.c:823-1008 | the two evaluations XOR to 1 at the target and to 0 at every other point |
| Dpf.OnPathChild | src/dht.c:846-900 | what a correction word does to the two children of a pair of nodes on the path |
| Dpf.ExpandLevel | src/dht.c:945-985 | one breadth-first level: the first children of the nodes, truncated to the buffer |
| Dpf.EvalFull | src/dht.c:923-1008 | evaluating the first n points with two swapped buffers of n nodes gives the prefix of the full evaluation |
| Dpf.Serialize | src/dht.c:1010-1020 | writes the wire form of a key, of fixed size |
| Dpf.Deserialize | src/dht.c:1022-1034 | reads any long enough input and refuses shorter ones |
| Dpf.RoundTrip | src/dht.c:1010-1034 | a serialized key, followed by anything, reads back as the same key |
| Dpf.WireLayout | src/dht.c:1010-1020 | where seed, control bits and correction words of a key stand on the wire |
| Pir.LatestIsLatest | src/dht.c:704-727 | the entry that stands for a slot is the one stored last, the highest index on equal times |
| Pir.Flatten | src/dht.c:704-727 | the slot array is the table of padded latest descriptors, zeros for empty slots |
| Pir.Answer | src/dht.c:698-769 | a replica's answer is the XOR of the selected slots |
| Pir.AnswersDiffer | src/dht.c:1617-1620 | answers to selections that differ in one slot differ by exactly that slot |
| Pir.MaskLookup | src/dht.c:1494-1507 | for every random mask, mask and flipped mask differ in the wanted slot only |
| Pir.Send | src/dht.c:738-769 | the answer cut into cells: order, offsets, total length |
| Pir.Collect | src/dht.c:1294-1372 | reassembly of the cells of one answer, with its refusals |
| Pir.CompleteFrom | src/dht.c:1294-1372 | a complete answer is made only of cells of this query that agree on the total, which fits, and stay within it, up to the one that reaches it |
| Pir.Reassembles | src/dht.c:738-769 | what is sent in several cells comes back unchanged |
| Pir.Combine | src/dht.c:1617-1620 | XOR of two answers, byte by byte |
| Pir.FetchPir | src/dht.c:1488-1638 | with equal stores the bitmask lookup returns exactly the padded descriptor stored last among those whose two hash bytes have the same XOR as those of the address, and fails if there is none or it reads as zeros |
| Pir.FetchDpf | src/dht.c:1645-1784 | the DPF lookup returns the same answer |
| Pir.SameSlotIff | src/dht.c:713 | two addresses share a slot if and only if their hashes differ alike in both bytes |
| Pir.AnswersIff | src/dht.c:704-727 | the answer so described is unique, the content of the slot of the address |
| Pir.LatestIsNewest | src/dht.c:704-727 | the scan finds the entry stored last among those that share the slot, if there is one |
| Feistel.Encrypt | src/conflux.c:42-55 | four rounds in a loop compute the permutation |
| Feistel.Decrypt | src/conflux.c:58-71 | four rounds backwards compute its inverse |
| Feistel.FourRounds | src/conflux.c:42-55 | the four rounds written out: each half in turn is masked with the round function of the other |
| Feistel.XorBits | src/conflux.c:42-55 | every bit of the XOR of two numbers is set if and only if their bits differ |
| Feistel.Inverse | src/conflux.c:42-71 | encryption and decryption are mutually inverse for every round function |
| Conflux.Sender.SendData | src/conflux.c:207-262 | the loop sends the chunks of the data under consecutive encrypted numbers until a leg is missing, the numbers end or a cell is refused; a refused cell uses up its number |
| Conflux.ChunksKeepBytes | src/conflux.c:207-262 | cutting into chunks loses and adds nothing, every chunk fits a cell and carries the stream, and all but the last fill one |
| Conflux.LegsChosen | src/conflux.c:207-262 | every cell goes over the leg chosen for its number, and only if that leg takes it |
| Conflux.Receiver.Receive | src/conflux.c:264-372 | receive refines the value-level step: timeouts, unknown legs, duplicates, window and full buffer included |
| Conflux.Receiver.Sweep | src/conflux.c:278-292 | exactly the entries older than the timeout are dropped |
| Conflux.Receiver.Timeouts | src/conflux.c:278-312 | after a drop the receiver skips to the lowest buffered number if the next one is missing |
| Conflux.ExpireSkips | src/conflux.c:290-314 | after a drop the receiver expects the lowest number it still holds, not one that was lost |
| Conflux.ElapsedIs | src/conflux.c:278-292 | the age of an entry is the difference modulo the size of the clock, also when the clock went back |
| Conflux.Receiver.DeliverNext | src/conflux.c:374-403 | hands over the next buffered chunk or nothing |
| Conflux.Receiver.OnCell | src/socks5.c:1395-1460 | receive, hand over, drain: the step of every run, with cells from unknown or inactive legs dropped; "buffer full" only if something buffered lies outside the window |
| Conflux.StepDelivers | src/conflux.c:264-403 | one arrival, first or repeated, hands over the next run of the stream and keeps the buffer safe |
| Conflux.DeliversPrefix | src/conflux.c:264-403 | whatever cells arrive, from which circuits, how often and in which order, what is handed over is a gap-free prefix of the sent chunks by number, each once |
| Conflux.DeliversAll | src/conflux.c:264-403 | if the first n numbers arrive over active legs and nothing beyond the window, the first n chunks are handed over; the only callers of send and receive are in src/socks5.c |
| Conflux.DeliversIff | src/conflux.c:264-403 | if no cell arrives before everything a window below it has arrived, the first n chunks are handed over if and only if the first n numbers arrive over active legs |
| Conflux.OnlyArrived | src/conflux.c:264-403 | nothing is buffered or handed over that did not arrive over an active leg |
| Conflux.FullMeansStale | src/conflux.c:340-368 | "buffer full" needs a buffered number outside the window, so a run without timeouts never reaches it |
| Conflux.TimedRunIncreases | src/conflux.c:264-403 | with timeouts chunks may be lost, but handed-over numbers strictly increase and carry the right chunks |
| Conflux.EndToEnd | src/conflux.c:207-403 | for all calls on one sender and all arrivals of its encrypted cells at a receiver with the same round function: the output is a prefix of what was sent, the buffer is never full, nothing beyond the number of a refused cell is handed over |
| Conflux.BytesEndToEnd | src/conflux.c:207-403 | if every call succeeds, the bytes handed over are a prefix of the bytes sent, and all of them once the last number came out |
| Onion.SetDigest | src/cell.c:106-123 | stamps the payload with the next running digest over the zeroed field; StampChecks, ChecksIff and AlteredIff say what the stamp is good for |
| Onion.CheckDigest | src/cell.c:125-148 | accepts exactly matching payloads and commits the digest only then |
| Onion.StampChecks | src/cell.c:106-148 | a stamped payload passes the check at the other end, whose digest then moves alike |
| Onion.ChecksIff | src/cell.c:106-148 | an end with another running digest accepts the stamped payload if and only if the hashes of the two digests, each followed by the payload, agree in four bytes |
| Onion.AlteredIff | src/cell.c:106-148 | an altered payload is accepted if and only if the hashes of the two payloads after the running digest agree in four bytes |
| Onion.OutOfStepRefused | src/cell.c:110-139 | with a hash that copies its input, an end out of step refuses every payload |
| Onion.Client.EncryptForward | src/circuit.c:1563-1583 | stamp and one layer per hop, last hop first; stops at an exhausted nonce with the nonces of the hops beyond already used |
| Onion.Client.DecryptBackward | src/circuit.c:1589-1613 | peels every layer and commits the digest on a match; stops at an exhausted nonce |
| Onion.Relay.Decrypt | src/circuit.c:1616-1628 | removes one forward layer, or refuses when the nonce is exhausted |
| Onion.Relay.Encrypt | src/circuit.c:1636-1655 | adds one backward layer, or wipes the payload and marks the circuit |
| Onion.PeelBacked | src/circuit.c:1589-1655 | peeling undoes the layers the relays added, hop by hop |
| Onion.ThroughWrapped | src/circuit.c:1563-1628 | the relays undo the layers the client added, hop by hop |
| Onion.LayerIs | src/circuit.c:1563-1655 | each layer is the key stream of its hop under the key and nonce of the direction |
| Onion.LastTakes | src/relay.c:1880-1890 | with both ends in step, the last relay takes a forward cell exactly if no relay before it does |
| Onion.LastTakesIff | src/relay.c:1880-1890 | on a circuit with keys and nonces in step, a cell no relay before the last takes is taken by the last if and only if the hashes of its running digest and of the client's agree in four bytes |
| Onion.UnseenThenTaken | src/relay.c:1880-1890 | after a cell the last relay did not take, the next one is taken only if the digest that moved on and the one that did not hash alike |
| Onion.Unrecognized | src/relay.c:1880-1890 | a cell whose recognized field is not 0 is passed on whatever its digest |
| Onion.StepDelivers | src/circuit.c:1563-1655 | with both ends in step a cell in either direction arrives intact and is accepted if and only if no relay before the last takes it, and then leaves both ends in step |
| Onion.InStep | src/circuit.c:1563-1655 | nonces and digests of both ends stay equal as long as no relay before the last takes a cell |
| Onion.StepNonces | src/circuit.c:1563-1655 | a cell uses up one nonce of every hop in its direction and none in the other; a new hop starts at 0 |
| Onion.NoncesOnce | src/circuit.c:1563-1655 | no two cells of a run are encrypted for a hop under the same key and nonce |
| Onion.AllDeliveredIff | src/circuit.c:1563-1655 | for any number of hops and any in-order run with hops added at any time, all cells arrive intact if and only if no relay before the last takes one for its own |
| Onion.CanMisread | src/relay.c:1887-1890 | a run, with a constant hash and key stream, in which the first of two relays takes the cell meant for the second |
| FlowControl.Sender.SendData | src/circuit.c:1856-1917 | sends while circuit and stream windows last and nothing fails, keeps the books, and returns success, a short count or an error in exactly the cases of the code |
| FlowControl.Sender.HandleSendme | src/circuit.c:1920-1958 | accepts exactly the SENDME with the digest of the next increment boundary; neither overflow cap nor underflow guard ever fires |
| FlowControl.Receiver.OnData | src/circuit.c:2090-2112 | the client's deliver window after a data cell and the SENDME it triggers; a SENDME that fails leaves the window unrefilled |
| FlowControl.Exit.OnData | src/relay.c:2308-2435 | the exit's deliver window and SENDME for every fate of a data cell; which fates count is said by CountedIs, MissedIff and ServedHolds; the cap on the window is never met |
| FlowControl.CountedIs | src/relay.c:2308-2346 | every cell is counted, except by a window run down to its floor on a cell for a connected stream |
| FlowControl.SendAccounted | src/circuit.c:1886-1908 | a data cell keeps window + in flight = full window and records its digest at every increment boundary |
| FlowControl.AcceptsNext | src/circuit.c:1925-1948 | the only SENDME accepted next carries the digest of data cell (acked + 1) * increment |
| FlowControl.RefillAccounted | src/circuit.c:1949-1958 | an accepted SENDME keeps the books without cap or clamp |
| FlowControl.NextGood | src/relay.c:2308-2435 | every step of client, exit and the cells between them keeps the joint invariant unless the exit fails to account for a cell |
| FlowControl.MissAdrift | src/relay.c:2347-2366 | after the first cell not accounted for, nothing is owed for the next increment boundary |
| FlowControl.AcceptsOwed | src/circuit.c:1925-1948 | from then on, with distinct digests, only the SENDMEs owed from before are accepted |
| FlowControl.NextKnown | src/relay.c:2308-2435 | every step, faults included, keeps the invariant of its phase |
| FlowControl.FlowControlHolds | src/relay.c:2308-2435 | over every interleaving in which the exit accounts for every cell, no SENDME is refused, windows add up, and a quiet link leaves the client able to send: no deadlock |
| FlowControl.MissedIff | src/relay.c:2308-2435 | the exit misses a cell if and only if a write fails or a SENDME is not queued at an increment boundary |
| FlowControl.ServedHolds | src/relay.c:2308-2435 | over every run in which no write fails and every SENDME is queued, whatever else the exit finds, nothing is refused, windows add up, and a quiet link leaves the client able to send |
| FlowControl.QuietIff | src/relay.c:2308-2435 | on a quiet link nothing was refused and the window is open if and only if no cell was missed or the boundary after it was not sent yet |
| FlowControl.MissStops | src/relay.c:2347-2366 | after a miss the client never sends more than one window past the last boundary before it |
| FlowControl.StuckIff | src/relay.c:2308-2435 | without further failed writes or SENDMEs, whatever the other fates, the circuit can come to a halt if and only if the exit missed a cell |
| FlowControl.WriteErrorSticks | src/relay.c:2347-2366 | a run with one failed write, of the first cell, that ends quiet with an empty window |
| ReturnFlow.Exit.OnRead | src/relay.c:1255-1335 | the exit sends while stream and circuit windows last; the digest of every hundredth cell is recorded; a missing previous hop costs a place in the window and sends nothing |
| ReturnFlow.Exit.OnSendme | src/relay.c:2534-2564 | accepts exactly the SENDME with the digest of the next increment boundary, or any SENDME while none is expected; the overflow cap never fires |
| ReturnFlow.ChargeAlike | src/relay.c:1297-1328 | a data cell is accounted for as in the other direction, the cell counter standing in for the cells in flight |
| ReturnFlow.SendmeAlike | src/relay.c:2534-2564 | so is a SENDME, as long as one is expected |
| ReturnFlow.UnexpectedTaken | src/relay.c:2534-2564 | a SENDME that is not expected is taken whatever it says, and refills the window |
| ReturnFlow.NextAlike | src/relay.c:1255-1335 | every step of exit, client and the cells between them is a step of the other direction |
| ReturnFlow.RunAlike | src/relay.c:1255-1335 | so every run is, if all SENDMEs due are queued or digests are distinct |
| ReturnFlow.ReturnFlowHolds | src/circuit.c:2090-2112 | over every interleaving in which every SENDME due is queued, nothing is refused, windows add up, and a quiet link leaves the exit able to send |
| ReturnFlow.ReturnStuckIff | src/circuit.c:2090-2112 | without further faults the circuit can come to a halt if and only if the client once failed to queue a SENDME that was due |
| ReturnFlow.SendmeLostSticks | src/circuit.c:2098-2112 | a run with one such failure, the first SENDME, that ends quiet with an empty window |
| CircuitPool.Pool.Alloc | src/circuit.c:323-361 | a new circuit at an address never used before |
| CircuitPool.Pool.Mark | src/circuit.c:485-524 | marks a circuit once, unlinks its rendezvous partner and marks it along; both are queued once |
| CircuitPool.Pool.Register | src/circuit.c:188-196 | binds exactly the live endpoint pairs that are free, in order, while the index has room; bound pairs stay with their circuit |
| CircuitPool.Pool.Join | src/relay.c:2727-2729 | joining two circuits keeps the invariant if and only if neither was joined to a third one |
| CircuitPool.Pool.Cleanup | src/circuit.c:387-436 | takes a circuit out of its partnership, clears its id and drops exactly its pairs from the index, whoever they are bound to |
| CircuitPool.Pool.Release | src/circuit.c:439-442 | a cleaned-up circuit is released once and is gone |
| CircuitPool.Pool.Free | src/circuit.c:444-469 | frees an unmarked circuit at once, leaves a marked one to the deferred close |
| CircuitPool.Pool.Find | src/circuit.c:704-739 | returns the unmarked circuit bound to the pair, else the first tracked unmarked match, perhaps one already cleaned up; nothing only if no unmarked circuit matches; also during a close |
| CircuitPool.MatchesIff | src/circuit.c:704-739 | a lookup matches all pairs of a live circuit and none without an endpoint on the connection |
| CircuitPool.FindsCleanedIff | src/circuit.c:704-739 | a lookup for an id returns a cleaned-up circuit exactly if no unmarked circuit is bound to the pair and the first tracked unmarked match has no id and the pair as previous or next hop |
| CircuitPool.FindsCleaned | src/circuit.c:526-624 | a run from an empty pool in which a lookup between the passes of a close returns the cleaned-up circuit |
| CircuitPool.Pool.Extend | src/relay.c:388-398 | gaining a next hop and registering again keeps the invariant if and only if no pair of an earlier next hop stays bound to the circuit |
| CircuitPool.ExtendIndexed | src/relay.c:388-398 | the same condition for the index alone |
| CircuitPool.Pool.Nullify | src/circuit.c:638-661 | every live circuit loses its pointers to the connection, the index exactly the bindings on it, and the invariant holds |
| CircuitPool.CutKeeps | src/circuit.c:638-661 | one circuit losing its pointers keeps the index on live circuits under their own pairs |
| CircuitPool.Pool.MarkAll | src/circuit.c:628-636 | marks every live circuit on the connection and keeps all marks |
| CircuitPool.Pool.Teardown | src/circuit.c:689-702 | afterwards every live circuit that used the connection is marked, and neither circuits nor index refer to it |
| CircuitPool.Pool.Callback | src/circuit.c:526-624 | callbacks that mark circuits keep the invariant and touch no circuit that is already cleaned up |
| CircuitPool.Pool.CloseAll | src/circuit.c:526-624 | releases exactly the circuits pending at the call, each once and in order; those marked meanwhile wait |
| CircuitPool.MarkOneKeeps | src/circuit.c:485-524 | marking keeps partners mutual, the pending list exactly the live marked circuits, and the index on live circuits |
| CircuitPool.CleanKeeps | src/circuit.c:387-436 | cleaning up keeps the same |
| CircuitPool.JoinKeepsPairs | src/relay.c:2727-2729 | partners stay mutual if and only if neither circuit was joined to a third |
| CircuitPool.ReleaseStaleIff | src/circuit.c:387-469 | joining and then releasing a circuit leaves a pointer to released memory if and only if the circuit was joined to a third one before |
| CircuitPool.StalePartner | src/relay.c:2727-2729 | a run from an empty pool that ends with such a pointer |
| CircuitPool.LostBinding | src/circuit.c:188-206 | a run from an empty pool in which freeing a circuit whose registration was refused unbinds another live circuit |
| CircuitPool.MarkSpares | src/circuit.c:485-524 | marking never touches a circuit that is cleaned up and waits for release |
| Guards.State.Sample | src/circuit.c:3063-3094 | fills up with relays not yet sampled, in the order selected; a new guard takes over the path-bias record last left in its slot and starts enabled if and only if the guard there was not disabled |
| Guards.FreshLasts | src/circuit.c:3063-3094 | a new guard expires 120 days after it was sampled and not before |
| Guards.DisabledFromStart | src/circuit.c:3063-3094 | a run (sample, twenty failed builds, check, expiry, sample) that ends with a new guard disabled |
| Guards.State.Select | src/circuit.c:3135-3166 | the first reachable primary, else the first reachable guard, else the primaries in turn, else the first guard |
| Guards.SelectsReachable | src/circuit.c:3135-3166 | a reachable guard is returned if there is one, the first reachable primary before all others |
| Guards.TakesTurns | src/circuit.c:3151-3159 | with no guard reachable the primary guards take turns |
| Guards.SelectsDisabledIff | src/circuit.c:3135-3166 | with current primaries a disabled guard is returned if and only if no primary is reachable and the first reachable guard is disabled, or none is reachable and all are disabled |
| Guards.DisabledSelected | src/circuit.c:3143-3149 | a run that ends with a disabled guard selected while another one is enabled |
| Guards.State.UpdatePrimary | src/circuit.c:3096-3133 | the primary list is the best three enabled guards by rank: reachable confirmed, other confirmed, other sampled |
| Guards.RankPrefers | src/circuit.c:3096-3133 | the rank orders guards as preferred: confirmed before others; of two confirmed ones a reachable one before one that is not, else by confirmation; of two others by sampling |
| Guards.State.AddReachable | src/circuit.c:3099-3107 | the first pass gives the best of the guards ranked below the second class |
| Guards.State.AddConfirmed | src/circuit.c:3109-3120 | the second pass extends it to all confirmed guards |
| Guards.State.AddSampled | src/circuit.c:3122-3132 | the third pass extends it to all sampled guards |
| Guards.State.MarkReachable | src/circuit.c:3168-3190 | updates the guard, confirms it once if there is room, and chooses primaries anew; the lists stay sound if and only if no guard is newly listed as confirmed at time 0 |
| Guards.State.MarkUnreachable | src/circuit.c:3192-3205 | updates the guard and chooses primaries anew |
| Guards.FirstFailureKept | src/circuit.c:3168-3205 | the time of the first failure is kept until the guard is reached again, and the time of the first confirmation for good |
| Guards.State.Expire | src/circuit.c:3207-3239 | keeps exactly the unexpired guards in order; the confirmed list names exactly the unexpired previously confirmed guards in the same order; vacated slots keep their content |
| Guards.State.Compact | src/circuit.c:3211-3226 | compaction in place with the old-to-new index map |
| Guards.AgeIs | src/circuit.c:3211-3226 | the age of a guard is the difference modulo the size of the clock |
| Guards.State.Remap | src/circuit.c:3228-3236 | confirmed indices through the map, in place |
| Guards.State.CheckAll | src/circuit.c:3294-3355 | judges every guard; afterwards no primary names a disabled guard |
| Guards.State.CountAttempt | src/circuit.c:3262-3268 | counts an attempt, halving a long record, and keeps all lists sound |
| Guards.AttemptedKeeps | src/circuit.c:3262-3268 | counting keeps successes within attempts, and a halved record says the same up to rounding |
| Guards.DisabledIff | src/circuit.c:3294-3344 | which counts disable a guard, in whole numbers, and that it is then no longer reachable |
| Guards.SuspectIff | src/circuit.c:3294-3344 | which counts make a guard suspect, and that nothing else changes unless it is disabled |
| Guards.OnlyBest | src/circuit.c:3096-3133 | the best list is unique, so the primary list is determined by guards and confirmed list |
| Guards.MovedNames | src/circuit.c:3207-3236 | the remapped indices name exactly the kept ones among the guards named before, in order |
| Guards.PassEnds | src/circuit.c:3096-3133 | a pass that ends early with a full list, or late with all its guards seen, has the best of everything ranked so far |
| LinkRekey.Connection.RotateSend | src/connection.c:1408-1442 | rotation by record count or elapsed time; all keys stay the keys of their epoch |
| LinkRekey.Connection.RotateRecv | src/connection.c:1446-1476 | the same for the receiving direction |
| LinkRekey.KeyUsesEpoch | src/connection.c:1408-1442 | the epoch number goes into the derivation of every key but the first |
| LinkRekey.KeyUsesChain | src/connection.c:1408-1442 | two chains with equal keys in some epoch had equal first keys, unless the derivation collides |
| LinkRekey.DueIff | src/connection.c:1413-1418 | a key is rotated if and only if its records are used up or its interval has passed, and a clock set back rotates nothing |
| LinkRekey.TickRests | src/connection.c:1408-1442 | a new key serves a full count of records or a full interval from the moment it was made |
| LinkRekey.Connection.SendCell | src/connection.c:1483-1533 | one sealed record per call under the key of its epoch and a fresh nonce; a used-up nonce closes the link |
| LinkRekey.Connection.RecvCell | src/connection.c:1673-1715 | current key, then the previous one; a refused record moves neither nonce nor record count |
| LinkRekey.AcceptsIff | src/connection.c:1683-1715 | with distinct keys for the epochs in question, a record in order is accepted if and only if the receiver, after its own rotation, is in the record's epoch or exactly one ahead |
| LinkRekey.SendsInEpoch | src/connection.c:1408-1533 | in every run record i is sealed with the key of its epoch, a function of the epoch number alone, under a nonce of its own |
| LinkRekey.AllAcceptedIff | src/connection.c:1408-1715 | over whole runs, with distinct keys for the epochs the run can reach, everything is accepted if and only if at every record the receiver has rotated as often as the sender or once more |
| LinkRekey.RefusedForGood | src/connection.c:1683-1715 | after one refusal every later record is refused |
| LinkRekey.EpochByCount | src/connection.c:1408-1476 | if the timer never fires, record i uses epoch i / records per epoch |
| LinkRekey.CountAgrees | src/connection.c:1408-1715 | then both ends agree on every epoch and accept everything |
| LinkRekey.SenderFirst | src/connection.c:1408-1715 | a sender whose interval has passed before the receiver's breaks the link |
| Handshake.NoiseAgrees | src/connection.c:617-948 | an honest pair completes the Noise part with each end's sending key the other's receiving key; on what the keys depend is said by WelcomeFrom, RespondFrom and KeysBind |
| Handshake.AnswerAgrees | src/connection.c:668-765 | message 2 made by the responder is accepted by the initiator and splits into crossed keys |
| Handshake.GreetFrom | src/connection.c:662-702 | message 1 is the ephemeral key and the static key sealed under the first shared secret and the transcript so far; it exists if and only if both secrets do |
| Handshake.WelcomeFrom | src/connection.c:710-765 | message 2 is accepted if and only if its seal opens under all four shared secrets and the whole transcript, and the keys are derived from the four in their order |
| Handshake.RespondFrom | src/connection.c:785-948 | the responder mixes in its four shared secrets, seals message 2 under them and the transcript it saw, and derives its keys from them |
| Handshake.KeysBind | src/connection.c:575-765 | two clients that end with an equal Noise key, in either direction, had the same four Diffie-Hellman values, unless the derivation collides |
| Handshake.SameTranscript | src/connection.c:617-948 | a client that accepts message 2 of a responder talks to that responder, which saw its message 1 unaltered, unless the hash collides or a seal opens under another transcript |
| Handshake.CollectCells | src/connection.c:985-1030 | KEM data sent in three sealed cells is collected whole, with three nonces used |
| Handshake.CellLayout | src/connection.c:985-1002 | a KEM cell on the wire: length, then a seal under its number of four zero bytes, command, the next bytes of the data, zeros |
| Handshake.EndsAgree | src/connection.c:965-1158 | both ends finish with crossed keys and nonces, from Diffie-Hellman commutativity, opening of sealed data and decapsulation only; LinkFrom and LinkBinds say what the keys depend on |
| Handshake.LinkFrom | src/connection.c:1032-1049 | the keys of a finished link are derived from the Noise keys and the KEM secret |
| Handshake.LinkBinds | src/connection.c:1032-1049 | two finished clients with an equal link key had the same Noise key and the same KEM secret, unless the derivation collides |
| Handshake.CollectMore | src/connection.c:1953-1978 | bytes that arrive later change nothing of what is already complete or broken |
| Handshake.AsyncAsBlocking | src/connection.c:965-2238 | what the asynchronous client completes, the blocking client completes with the same bytes sent, keys and nonces |
| HandshakeIo.BlockingClient | src/connection.c:965-1067 | for every split of the incoming stream the result is that of the whole stream |
| HandshakeIo.BlockingServer | src/connection.c:1070-1158 | the same for the server |
| HandshakeIo.RecvKem | src/connection.c:1004-1030 | the cell-collecting loop equals collection from the whole stream |
| HandshakeIo.RecvCell | src/connection.c:1620-1739 | reading until a cell is complete equals taking the first cell of the whole stream |
| HandshakeIo.SendKem | src/connection.c:985-1002 | the sealed cells of KEM data and the nonces used |
| HandshakeIo.AsyncClient.Connected | src/connection.c:2241-2340 | message 1 and the first write; the state invariant |
| HandshakeIo.AsyncClient.HsSend | src/connection.c:1983-2001 | partial writes of message 1 |
| HandshakeIo.AsyncClient.HsReceive | src/connection.c:2005-2107 | partial reads of message 2 |
| HandshakeIo.AsyncClient.StartKem | src/connection.c:2023-2107 | key split and first sealed cell |
| HandshakeIo.AsyncClient.PqSend | src/connection.c:2110-2158 | partial writes of the three cells |
| HandshakeIo.AsyncClient.PqReceive | src/connection.c:2161-2238 | partial reads; open just when the bytes received so far finish the handshake, closed only by a socket error or because they break it |
| HandshakeIo.AsyncClient.OpensAsBlocking | src/connection.c:2161-2238 | an open connection sent the bytes and has the keys and nonces of the blocking client |
| Quorum.Verify | src/directory.c:1154-1238 | the nested loops compute the tally of credited entries and compare it with the majority, for any trusted list that fits the table of nine flags; the code does not test the length itself, the configuration admits no more than nine (src/config.c:921) |
| Quorum.CountsSigners | src/directory.c:1177-1225 | with distinct trusted keys exactly the authorities with some fully valid signature are counted, each once, whatever order and repetition |
| Quorum.VerifiedIff | src/directory.c:1154-1238 | so a consensus is accepted if and only if a majority of authorities signed it |
| Quorum.MajorityLeast | src/directory.c:1154-1238 | the number of authorities asked for is the least that is more than half |
| Quorum.NoDowngrade | src/directory.c:1177-1225 | where every authority has a post-quantum key, nothing counts without a post-quantum signature under that key |
| Quorum.EdSuffices | src/directory.c:1177-1225 | an authority without a post-quantum key counts by its Ed25519 signature |
| Quorum.EdRequired | src/directory.c:1177-1225 | nothing counts without an Ed25519 signature that holds |
| Quorum.AcceptedShareSigner | src/directory.c:1154-1238 | two accepted consensuses share an authority that signed both |
| Quorum.RepeatedIdCountsTwice | src/directory.c:1177-1225 | a trusted list that repeats a key lets one authority count twice |
| Quorum.CountsOnceIff | src/directory.c:1177-1225 | whatever the signatures, no identity counts more than once if and only if the trusted list names none twice |
| ConsensusBody.BuildBody | src/directory.c:683-719 | writes the body bytes in place; the buffer is never too small |
| ConsensusBody.BodyReads | src/directory.c:683-719 | where everything stands in the body, read as big-endian numbers |
| ConsensusBody.Directory.Import | src/directory.c:659-677 | bootstrap import only: a newer descriptor replaces the old one of the same identity, a new identity takes the next slot, is refused at the limit of the table, or is written beyond the array |
| ConsensusBody.ImportedIs | src/directory.c:659-677 | a listed relay is replaced by a later descriptor only; a new one is appended |
| ConsensusBody.InsideIff | src/directory.c:669-674 | an import stays inside the array if and only if the relay is listed, or a slot is left, or the table is at its limit |
| ConsensusBody.ImportsInsideIff | src/directory.c:659-677 | a run of imports does if and only if the relays listed and imported are no more than the slots, or the array has all slots there can be |
| ConsensusBody.ImportsTooMany | src/directory.c:383-392 | 257 relays imported into a new directory end outside the array |
| ConsensusBody.Directory.Register | src/directory.c:533-610 | registration: the first relay with the same identity or the same address and port gives way, keeping its first-seen time if the identity is the same; otherwise the relay is appended while there is room, the array growing if it is full |
| ConsensusBody.FirstSeenKept | src/directory.c:533-610 | a relay that registers again keeps its place and the time it was first seen; one that takes an address over was first seen now; the others stay as they were |
| ConsensusBody.Directory.Grow | src/directory.c:593-605 | twice the slots, at least 256, at most the limit, with the relays kept |
| ConsensusBody.KeepsDistinctIff | src/directory.c:533-610 | a registration keeps identities distinct if and only if no relay at its address stands before its own old entry |
| ConsensusBody.ListedTwice | src/directory.c:576-586 | three registrations after which one identity is listed twice |
| ConsensusBody.RegisteredOnce | src/directory.c:533-610 | if descriptors that clash say the same, every run of registrations lists every relay once, as its descriptors say |
| ConsensusBody.OrderFreeIff | src/directory.c:533-610 | runs of the same descriptors from a pool all end in the same entries if and only if descriptors that share an identity or an address say the same |
| ConsensusBody.Directory.Evict | src/directory.c:873-893 | swap-with-last eviction keeps exactly the relays that are not stale |
| ConsensusBody.StaleIff | src/directory.c:873-893 | exactly the relays last heard of more than three hours ago are stale, counted from publication if they never registered here |
| ConsensusBody.Directory.Build | src/directory.c:856-904 | epoch-aligned timestamps, eviction of exactly the stale relays, order by identity |
| ConsensusBody.Directory.BuildSigned | src/directory.c:856-1035 | the bytes signed are the body of the relays that are not stale, in order |
| ConsensusBody.SameEpoch | src/directory.c:862-871 | two clocks give the same timestamps if and only if, three seconds on, they are in the same hour |
| ConsensusBody.TimesAbut | src/directory.c:862-871 | a consensus is fresh until the next epoch starts and valid for three, and a clock within three seconds of its hour already uses it |
| ConsensusBody.OneOrder | src/directory.c:850-853 | there is only one ordered list of the same entries in which no identity has two bandwidths |
| ConsensusBody.SameBodyIff | src/directory.c:683-904 | two authorities sign the same bytes if and only if their clocks fall in the same epoch and they list the same identities and bandwidths among the relays that are not stale |
| ConsensusBody.OneBodyIff | src/directory.c:683-904 | relays and clock determine the bytes if and only if no identity is listed with two bandwidths |
| ConsensusBody.SameOnce | src/directory.c:683-719 | lists with distinct identities and the same entries meet the condition of the two statements above |
| ConsensusBody.ImportsLatest | src/directory.c:659-677 | after any run of bootstrap imports of no more relays than the array has slots, exactly the latest descriptor of every relay is listed |
| ConsensusBody.ImportOrder | src/directory.c:659-677 | under the same condition, the same descriptors imported in any order end in the same entries |
| ConsensusBody.BodyInjective | src/directory.c:683-719 | equal bodies have equal timestamps and equal ordered lists of identities and bandwidths |
| BandwidthWeights.Computed | src/directory.c:921-980 | no division by zero, every weight in [0, S], class shares add up to S, rounding loses at most 2 |
| BandwidthWeights.Weigh | src/directory.c:921-990 | class sums and weights as computed; the final clamp changes nothing |
| BandwidthWeights.TotalsAre | src/directory.c:922-932 | each relay counts in one class, by its two flags |
| BandwidthWeights.Balanced | src/directory.c:939-980 | where a class is not scarce its weight gives its position a third of the bandwidth of the others, up to rounding; a scarce class keeps its position to itself |
| BandwidthWeights.BothServe | src/directory.c:939-980 | relays of both classes serve evenly if nothing is scarce, else all of them for the scarcer class |
| Responsible.Find | src/dht.c:79-156 | no relay, the first three in a small network, or three running relays such that none left out is strictly closer |
| Responsible.Scan | src/dht.c:116-148 | the table of the closest so far ends with three nearest ones |
| Responsible.Worst | src/dht.c:139-143 | the scan for a farthest entry of the table |
| Responsible.OrderIndependent | src/dht.c:79-156 | with distinct ring positions the chosen set does not depend on consensus order |
| Responsible.IsResponsible | src/dht.c:158-174 | whether a relay is among the chosen ones |
| Responsible.DecisionsAgree | src/dht.c:158-174 | from six running relays on, publisher, replica and client agree on responsibility |
| Responsible.DistanceInjective | src/dht.c:59-64 | different ring positions have different XOR distances |
| Responsible.DistanceMetric | src/dht.c:59-64 | the distance is symmetric, and zero if and only if the positions are equal |
| Responsible.AtDescriptor | src/dht.c:116-148 | a running relay exactly where the descriptor is belongs to the chosen ones |
| Responsible.FullReplicationIff | src/dht.c:97-107 | in a small network every running relay is chosen if and only if there are at most three |
| Responsible.SmallOrderIff | src/dht.c:97-107 | in a small network the choice does not depend on the order of the list if and only if there are at most three running relays |
| Octets.Compare | src/dht.c:66-73 | the byte-wise comparison decides the lexicographic order |
| Octets.BeforeIff | src/dht.c:66-73 | the first byte that differs decides |
| JsonPrinter.Printer.Ensure | src/cJSON.c:490-573 | room for the bytes asked for, by growing if allowed; fails exactly at the limit and keeps the text |
| JsonPrinter.Printer.UpdateOffset | src/cJSON.c:576-586 | finds the end of the text, which contains no terminator |
| JsonPrinter.Printer.PrintString | src/cJSON.c:954-1073 | both passes write the escaped text within the reserved bytes |
| Json.EscapedClean | src/cJSON.c:954-1073 | printed strings hold no control bytes, and how many bytes each byte takes |
| JsonPrinter.Printer.PrintNumber | src/cJSON.c:596-663 | the number text within the reserved bytes, refused if longer than the number buffer |
| Json.DigitsRead | src/cJSON.c:596-663 | printed ints have no leading zeros and stand for the number |
| JsonPrinter.Printer.PrintValue | src/cJSON.c:1423-1494 | succeeds if and only if the nesting is within the limit and text, terminator and one more byte fit; the buffer then holds exactly the text |
| JsonPrinter.Printer.PrintArray | src/cJSON.c:1595-1659 | the same for arrays |
| JsonPrinter.Printer.PrintObject | src/cJSON.c:1780-1896 | the same for objects |
| Json.MemberLooks | src/cJSON.c:1595-1896 | the bytes of an array inside an object, in both formats |
| Json.EmptyLooks | src/cJSON.c:1423-1896 | those of the words and of an empty object |
| JsonPrinter.TextTerminated | src/cJSON.c:576-586 | printed text of C strings contains no terminator |
| JsonParser.Parser.SkipWhitespace | src/cJSON.c:1090-1113 | skips bytes up to space and stays on the last byte at the end of the buffer |
| JsonParser.BlankIs | src/cJSON.c:1090-1113 | everything skipped is at most a space, and the byte after it is not |
| JsonParser.Parser.ParseHex4 | src/cJSON.c:666-699 | value of four hexadecimal digits, 0 for malformed ones |
| JsonParser.HexReads | src/cJSON.c:666-699 | four digits of either case have the value they are written for |
| JsonParser.Parser.Utf16Literal | src/cJSON.c:703-821 | one or two escapes to UTF-8 bytes, written in place, last byte first; that these decode to the code point is Utf8Decodes |
| JsonParser.Parser.ParseString | src/cJSON.c:824-951 | the decoded string as a C string; no byte is written outside the buffer allocated before decoding |
| JsonParser.KeepsWholeIff | src/cJSON.c:824-951 | an accepted literal keeps its whole text if and only if none of its units stands for NUL: a raw NUL, or an escape whose four digits have the value 0 |
| JsonParser.Parser.Decode | src/cJSON.c:869-926 | the decoding loop stays within the buffer on every input, also where a malformed escape puts it out of step with the scan |
| JsonParser.UnitFits | src/cJSON.c:838-926 | every decoded unit takes no more room than it gives up, the invariant behind that |
| JsonParser.EscapesShift | src/cJSON.c:838-862 | a scan that starts one byte later counts at most one escape less and never one more |
| JsonParser.Utf8Keeps | src/cJSON.c:763-811 | the encoding keeps the code point |
| JsonParser.Utf8Decodes | src/cJSON.c:763-811 | a decoder that goes by the lead byte reads every code point up to 0x10FFFF back, with its length, whatever follows |
| JsonParser.Utf8Shortest | src/cJSON.c:763-811 | no shorter form decodes to the code point |
| JsonParser.PairReads | src/cJSON.c:723-757 | a surrogate pair stands for the code point it was made from |
| JsonParser.SingleReads | src/cJSON.c:703-821 | a single escape stands for its code point unless that is a surrogate |
| JsonParser.EscapeMeans | src/cJSON.c:869-926 | which two-byte escapes there are and what they stand for |
| JsonParser.Parser.ParseNumber | src/cJSON.c:307-408 | the longest run of number bytes, its value and the saturated int |
| JsonParser.NumberEndIs | src/cJSON.c:307-408 | where a number ends, by the bytes it may hold |
| JsonParser.SaturatedIs | src/cJSON.c:307-408 | the int is the double cut towards zero, within the range of an int |
| JsonParser.Parser.ParseValue | src/cJSON.c:1368-1420 | computes what the text at the offset denotes, with depth restored |
| JsonParser.Parser.ParseArray | src/cJSON.c:1497-1592 | the same for arrays, with the nesting limit |
| JsonParser.Parser.ParseObject | src/cJSON.c:1662-1777 | the same for objects, with the nesting limit |
| JsonParser.Parser.ParseText | src/cJSON.c:1147-1224 | whole texts, with byte order mark and end of text |
| JsonParser.MarkSkipped | src/cJSON.c:1115-1224 | a byte order mark is skipped, and what follows the value is refused if and only if the whole text is asked for |
| JsonRoundTrip.StringReads | src/cJSON.c:824-1073 | a printed string literal decodes to the string |
| JsonRoundTrip.ValueReads | src/cJSON.c:1368-1896 | a printed value inside any text parses to itself, in both formats and at every depth |
| JsonRoundTrip.ElementsRead | src/cJSON.c:1497-1659 | the same for the elements of an array |
| JsonRoundTrip.FieldsRead | src/cJSON.c:1662-1896 | the same for the members of an object |
| JsonRoundTrip.RoundTrip | src/cJSON.c:1131-1896 | every tree of null, booleans, ints, C strings, arrays and objects that prints parses back to itself, in both formats |
| JsonRoundTrip.ParsedSound | src/cJSON.c:1497-1777 | what the parser accepts nests no deeper than the printer allows, and its strings are C strings |
| JsonRoundTrip.Reprints | src/cJSON.c:1131-1896 | every accepted text whose numbers are ints gives a tree the printer can print, and the print reads as the same tree |
| JsonRoundTrip.CutAtNul | src/cJSON.c:954-1073 | a text with an escaped NUL, which reads and prints as the part before it |

## Left out

- Cryptographic primitives: arbitrary functions; the laws used are XOR with a key stream, Diffie-Hellman
  commutativity, opening of sealed data, decapsulation, for the key ratchet distinct keys in the epochs of a run
  with ideal sealing, for a circuit with a missed cell distinct running digests, and where keys or transcripts are
  traced back to what went into them, that the calls compared do not collide.
- Sockets, event loop, timers, threads, locks, files, HTTP: sections under a lock are single steps; clocks,
  randomness and socket results are parameters.
- Failing allocations, except the fixed buffer of the JSON printer.
- Machine integer widths beyond 64-bit time differences and the limits of nonces and sequence numbers.
- CircuitTable.Table.Insert: the table size and hash are parameters; nothing depends on their values.
- CircuitPool.Pool.Callback: subsystem callbacks only mark circuits; addresses are never reused.
- CircuitPool.Pool.Extend: the channel and multiplexer attached with the next hop are left out.
- CircuitPool.Pool.Nullify: reference counts of connections are left out.
- Onion.AllDeliveredIff: covers cells to and from the current last hop; cells from middle hops are not part of
  this model.
- Onion.CanMisread: shows a chance collision with a constant hash and key stream, since the real ones are parameters.
- FlowControl.FlowControlHolds: circuit-level windows, on circuits without conflux; the stream's deliver window is
  part of the fate of a cell; rendezvous joins, stream SENDMEs, congestion window, round-trip times, and the
  RELAY_END, XOFF and XON cells of the exit are left out.
- ReturnFlow.ReturnFlowHolds: runs end when the exit's previous hop is gone or a data cell of the exit cannot be
  queued; end-to-end decryption of rendezvous circuits is left out.
- FlowControl.Sender.SendData: a cell whose encryption or queueing fails is not counted; that its digest has
  already advanced is left out.
- Conflux.Sender.SendData: the choice of a leg is a parameter, and a leg either takes a cell or refuses it.
- Pir.FetchPir: both replicas hold the same store; wire headers, worker threads and retries are left out.
- LinkRekey.Connection.SendCell: stops at the sealed record; output queue and transports are left out, and
  key derivation does not fail.
- LinkRekey.SendsInEpoch: runs are shorter than the nonce space.
- Handshake.EndsAgree: identity conversion, the refusal of an unknown peer and handshake timeouts are left
  out.
- HandshakeIo.RecvCell: a record whose length is malformed is refused at once, not after further reads.
- Quorum.Verify: takes at most nine trusted keys, the size of its table and of the configured list; what happens
  beyond is not modelled.
- ConsensusBody.Directory.Register: the checks a descriptor must pass first, its role flags, probe failures,
  verified bandwidth and country are left out.
- ConsensusBody.Directory.Import: the feature check, and what follows a write beyond the array, are left out.
- ConsensusBody.Directory.Build: the sort is any function that orders by identity.
- Guards.State.Sample: relay selection honours its exclude list.
- Guards.State.Select: the counter of the round robin does not overflow.
- Guard persistence and the other path-bias counters would only add easier members.
- JsonParser.Parser.ParseNumber: the number scanner is a parameter and the decimal point is `.`; the round
  trip is for ints.
- JsonPrinter.Printer.PrintNumber: the text of a number that is no int is a parameter.
- JsonParser.Parser.ParseValue: the offset left behind by a failed parse, used for error messages, is left out.
- JSON raw items, references, missing names and the tree-editing functions.
- Path selection, hidden services, transports, configuration, shared randomness, bandwidth measurement and
  circuit build timeouts are not part of this model.

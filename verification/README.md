# Wakaama, modelled and proved in Dafny

Wakaama is an LwM2M stack in C: CoAP exchanges with retransmission and
block-wise transfer, the TLV, CBOR, SenML and text formats, registration and
its retries, the server's registry of clients, observations, bootstrap. This
project models that core and proves what it promises over whole runs.

Each part comes in two layers. A **specification** module states one step of
the code on values, and proves invariants, round trips and exact conditions
about it. An **engine** module has the code in its own form (objects updated in
place, loops over lists that shrink, bytes written into buffers), and each of
its methods is proved to do exactly the specified step, so that the theorems
hold of it. The laws of a part (`TransactionLaws`, `RegistrationLaws`,
`RegistryLaws`, `LinkLaws`, and the last sections of the other specifications)
say on the fields of the state what each message, step or byte does, without
the functions that compute it.

| part | specification | as written |
|---|---|---|
| sorted linked list | `SortedList` | `SortedList.Node`, `ListAdd`, `ListFind`, `ListRemove`, `ListNewId` |
| transactions | `Transactions`, `TransactionRuns`, `TransactionTiming`, `TransactionLaws` | `TransactionEngine` |
| block-wise transfer | `BlockTransfer`, `BlockProtocol`, `BlockLateness` | `BlockTransfer.Peer`, `BlockSender` |
| TLV | `Tlv`, `BigEndian` | `TlvCodec`, `Buffers` |
| registration, client side | `Registration`, `RegistrationOrder`, `RegistrationRetries`, `RegistrationLaws` | `RegistrationEngine` |
| registration payload | `LinkFormat`, `LinkParser`, `LinkLaws`, `Decimal`, `Text` | `LinkPrinter`, `LinkReader` |
| client registry | `Registry`, `RegistryLaws` | `RegistryEngine` |
| observations | `Observe`, `ObserveRuns` | `ObserveEngine` |
| CBOR | `Cbor` | `CborCodec` |
| SenML | `Senml` | `Senml` |
| URIs, Base64 | `Uri`, `Base64` | `Uri`, `Base64` |
| bootstrap deletion | `Bootstrap` | `BootstrapEngine` |

Time is mathematical, memory never runs out, `COAP_RESPONSE_TIMEOUT` and
`COAP_MAX_RETRANSMIT` are parameters, and what a user callback is told is an
entry in a log. Byte and 16-bit counters keep their width. A step of the
environment (a message, a tick of the clock, a refused delete) is an argument,
and the theorems quantify over all of them.

## What the code does not keep

The code is modelled as it is. Where a property expected of it is false in
general, the exact condition is proved instead, or the shortest run on which
it fails:

- A late copy of block 0 throws the receiver back. With two blocks the payload
  is then delivered twice (`DeliveredTwice`), with more the last block is
  delivered as if it completed the transfer (`LastBlockIff`,
  `LateFirstBlockTruncates`). It is harmless exactly when no later block was
  stored, or when the sender gave up before the last one
  (`LateBlockSpoilsIff`).
- A peer may shrink the block size in its answer to block 0 only; any later
  change repeats bytes (`ContiguousIff`).
- A separate response carries a message id of its own, and so never completes
  the transaction it answers, although the comment at
  `wakaama/coap/transaction.c:95-105` describes that case
  (`ForeignMidIgnored`).
- A 2.01 answer with a malformed Location-Path leaks the shared user data
  (`LastUserReleases`). A transaction that cannot be serialized leaves without
  its callback (`ExactlyOnce`).
- `registration_start` stops at an unreadable server, so ordered servers can be
  started out of order (`StartsInOrderIff`, `UnreadableReorders`). A blocking
  server that registers in a later sequence lets no other one start
  (`LateSuccessStrands`).
- A new attribute, a period or a threshold, is ignored by a watcher that had
  attributes but not that one (`AttributeTakesEffectIff`). With pmin above pmax, pmin is broken
  (`TooSoonPossible`).
- The OSCORE object is skipped when the length of the registration payload is
  computed and printed all the same (`PrintsAllIff`). In a buffer so small a
  version at the end can be sent without its numbers (`SmallBuffer`,
  `VersionLost`).
- `utils_textToUInt` reads 2^64 as 0 (`TwoToThe64ReadsAsZero`).
- A Registration Update is accepted whatever its payload is: the query and the
  path alone decide (`UpdatedIff`). A payload that cannot be parsed, such as
  "x", is refused in a Register but does in an Update what no payload does
  (`ObjectsReplacedIff`, `MalformedUpdateAccepted`).
- A CBOR break is written as the number 31, and a simple value 255 is not read
  back (`HeadRoundTripIff`, `BreakReadsAsNumber`). An indefinite length is taken
  for the length 31 (`IndefiniteReadsAs31`). A TLV container without
  children makes the whole parse fail (`Tlv.RoundTrip`).
- Bootstrap-Delete of everything reports what became of the last object only
  (`ErrorReportedIff`, `UnnoticedFailure`), and when a Security instance cannot
  be deleted, servers whose instance is gone already stay unmarked
  (`MarksStayRightIff`, `MarksGoWrong`).

## Model

| member | source | states |
|---|---|---|
| SortedList.AddContents | wakaama/core/list.c:21-44 | insertion adds that one entry and loses none |
| SortedList.AddKeepsOrder | wakaama/core/list.c:21-44 | inserting an unused id keeps the list strictly sorted |
| SortedList.AddKeepsWeakOrder | wakaama/core/list.c:21-44 | inserting an id in use keeps the list sorted, no longer strictly |
| SortedList.FindIsMembership | wakaama/core/list.c:47-58 | the early stop of the search misses nothing in a sorted list, and finds the very entry |
| SortedList.RemoveTakesOne | wakaama/core/list.c:61-96 | exactly the entry with the id leaves, the order stays, the id is gone |
| SortedList.RemoveHitsTarget | wakaama/core/list.c:61-96 | with repeated ids, removal by id hits the meant entry if and only if no earlier one shares its id |
| SortedList.NewIdIsSmallestFree | wakaama/core/list.c:98-113 | the new id is free and every smaller one is taken |
| SortedList.NewIdFreeIffRoom | wakaama/core/list.c:98-113 | the new id is free if and only if fewer than 65536 are taken; then the 16-bit counter wraps |
| SortedList.ListAdd | wakaama/core/list.c:21-44 | the pointer loop inserts as specified and the nodes still form one list |
| SortedList.ListFind | wakaama/core/list.c:47-58 | the pointer loop returns the node with the id, or null when there is none |
| SortedList.ListRemove | wakaama/core/list.c:61-96 | in any ordered list, repeated ids included, the pointer loop unlinks exactly the first node with the id and hands it over |
| SortedList.ListNewId | wakaama/core/list.c:98-113 | the pointer loop computes the specified id |
| TransactionRuns.ExactlyOnce | wakaama/coap/transaction.c:256-451 | over every run of sends, steps, responses, resets, 4.01s and close: the list stays sorted, every transaction leaves once, its callback runs once when it leaves and not before, at most N+1 sends |
| TransactionRuns.ShutdownCompletes | wakaama/core/liblwm2m.c:168-181 | closing a context completes everything still pending, each once |
| TransactionRuns.CompletesIff | wakaama/coap/transaction.c:287-366 | a received message completes a pending transaction if and only if it is addressed to it and is a reset, a final answer, or an acknowledgement that needs no answer |
| TransactionLaws.AnswerEnds | wakaama/coap/transaction.c:118-147 | the answer with the token of the request, in the acknowledgement or later, takes it off the list and the log gains exactly its callback with that message, the release of its data by the last user, and its own release |
| TransactionLaws.AcknowledgementIsNoted | wakaama/coap/transaction.c:339-361 | an acknowledgement with another token leaves the request listed and acknowledged, due after its response timeout, or else after one timeout for each send; nothing is called |
| TransactionLaws.AcknowledgementEnds | wakaama/coap/transaction.c:118-147 | a request without token, and a response, ends in the same way with its acknowledgement |
| TransactionLaws.ResetEnds | wakaama/coap/transaction.c:303-345 | a reset ends whatever was not acknowledged yet, and is not acknowledged itself |
| TransactionLaws.RefusalTriesAgain | wakaama/coap/transaction.c:318-335 | a 4.01 with retries left leaves it listed and not acknowledged, one timeout later |
| TransactionLaws.OtherMessagePasses | wakaama/coap/transaction.c:287-366 | any other message changes nothing and is not taken |
| TransactionLaws.StepTreatsAll | wakaama/coap/transaction.c:400-498 | a step treats every transaction as if it were alone, by its own fields: list, sends, callbacks and releases; the timeout returned is no later than any of them needs and no earlier than one of them, or a removal, asks for |
| TransactionLaws.SubmittedOnce | wakaama/coap/transaction.c:400-451 | a new exchange is listed in order, sent once and due after one timeout, or dropped without its callback when it cannot be serialized |
| TransactionLaws.CloseActs | wakaama/core/liblwm2m.c:168-181 | closing calls each listed transaction back without an answer, in order |
| TransactionRuns.ForeignMidIgnored | wakaama/coap/transaction.c:118-147 | a message with a message id that is not pending changes nothing, whatever its token |
| TransactionRuns.CounterFits | wakaama/coap/transaction.c:400-451 | the one-byte retry counter never wraps |
| TransactionRuns.SharedDataReleasedOnce | wakaama/coap/transaction.c:520-530 | user data shared by a chain of block transactions is never released while one of them is listed, and exactly once when the last leaves |
| TransactionRuns.LastUserReleases | wakaama/core/management.c:414-492 | the last user releases the data if and only if its answer is not a 2.01 with a malformed location |
| TransactionTiming.BackOff | wakaama/coap/transaction.c:400-451 | an unanswered transaction sent k times since t0 is due at t0 + T * (2^k - 1), over every run |
| TransactionTiming.SendsNeverEarly | wakaama/coap/transaction.c:400-498 | no send comes before its slot in the schedule, over every run |
| TransactionTiming.GivesUpLate | wakaama/coap/transaction.c:400-498 | a transaction is given up only after N+1 sends and not before t0 + T * (2^(N+1) - 1) |
| TransactionEngine.Context.Send | wakaama/coap/transaction.c:368-451 | sending in place does the specified step, and says by its result whether the transaction is still listed |
| TransactionEngine.Context.Submit | wakaama/core/packet.c:357-358 | a new exchange is listed in order and sent at once: the step that starts every run |
| TransactionEngine.Context.StepAll | wakaama/coap/transaction.c:454-498 | the loop over a list that shrinks under it does every due transaction once |
| TransactionEngine.Context.Response | wakaama/coap/transaction.c:287-366 | response matching in place does the specified step |
| TransactionEngine.Context.FinishTransaction | wakaama/coap/transaction.c:279-366 | callback, release of data and removal in that order, all other entries untouched |
| TransactionEngine.Context.DeleteAll | wakaama/core/liblwm2m.c:168-181 | the closing loop empties the list as specified |
| BlockTransfer.HandleRecord | wakaama/coap/block.c:193-276 | only block 0 and the block next in line change what is on record, by exactly their data |
| BlockTransfer.HandleFrame | wakaama/coap/block.c:81-99 | a block never disturbs another transfer |
| BlockTransfer.AnswerIs | wakaama/coap/block.c:193-276 | the answer by what is on record: 4.08 if and only if a block past the first has no record, or the next one finds a buffer of another length; a retransmission if and only if that block was stored; the payload only with the last block |
| BlockTransfer.TransferPartition | wakaama/core/packet.c:341-385 | the slices cover the payload once, in order, the last one alone without the more flag, also when the peer shrinks the size in its answer to block 0 |
| BlockTransfer.AskedSizeIsUsed | wakaama/core/packet.c:373-384 | when the answer to block 0 asks for a size that is not larger, every later block has it, with at most as many bytes; when it asks for none or a larger one, every block keeps the size |
| BlockTransfer.NextIsAsAsked | wakaama/core/packet.c:361-385 | one step: size, number, place, more flag and bytes of the next block, for any size asked for after any block |
| BlockTransfer.ContiguousIff | wakaama/core/packet.c:361-385 | the next slice starts where the last ended if and only if the size is kept or shrunk to a divisor after block 0; otherwise bytes are repeated, never skipped |
| BlockTransfer.Peer.HandleBlock | wakaama/coap/block.c:193-276 | the buffers updated in place hold what is specified, with the specified answer |
| BlockTransfer.Peer.Delete | wakaama/coap/block.c:116-143 | exactly the first entry with the identifier goes |
| BlockTransfer.Peer.SetExpectedMid | wakaama/coap/block.c:326-337 | the transfer waiting for one message id now waits for the other, its data unchanged |
| BlockProtocol.TransferSafe | wakaama/core/packet.c:341-385 | sender, lossy, repeating, reordering channel and receiver, as long as no copy of block 0 comes after block 1 was stored: the buffer is always the payload up to the highest block stored, at most one block is ahead, the payload is delivered once and nothing else ever |
| BlockProtocol.CopiesAreRetransmissions | wakaama/core/packet.c:648-668 | after delivery every copy of a later block is a retransmission and changes nothing |
| BlockProtocol.LastBlockIff | wakaama/coap/block.c:193-276 | over an unrestricted channel the last block delivers the payload if and only if it is next in line; else it is truncated or a retransmission |
| BlockProtocol.LateFirstBlockTruncates | wakaama/coap/block.c:205-232 | when all but the last of three or more blocks are stored, a late copy of block 0 and then the last block deliver the first block as the whole payload |
| BlockLateness.LateBlockSpoilsIff | wakaama/coap/block.c:205-232 | the restriction on block 0 is exact: after any run of up to 65536 blocks that keeps it, one more copy of block 0 can lead to a wrong or second delivery if and only if a later block is stored and the last block was sent or can still be |
| BlockLateness.DeliveredTwice | wakaama/coap/block.c:205-232 | with two blocks, a late copy of block 0 and then of block 1 deliver the payload a second time |
| BlockProtocol.TransferPossible | wakaama/core/packet.c:341-385 | from every start some run delivers the payload, for up to 65536 blocks |
| BlockSender.Uploader.SendNextBlock1 | wakaama/core/packet.c:361-385 | the next block is listed and transmitted under the next message id, or leaves the list again when it cannot be serialized, or nothing changes |
| BlockSender.Uploader.SendNewBlock1 | wakaama/core/packet.c:341-358 | a clone of the previous request with the asked slice and a fresh message id is listed and transmitted once, or leaves the list again when it cannot be serialized |
| Tlv.RoundTrip | wakaama/data/tlv.c:345-403 | parsing what was serialized gives the same tree, leaves as bytes, if and only if no container is empty; otherwise nothing is read |
| Tlv.DecodeHeader | wakaama/data/tlv.c:281-343 | every header is recovered from the front of a longer buffer, with type, id, length and its own size |
| Tlv.AnyHeaderRead | wakaama/data/tlv.c:281-343 | every header of any writer is read, ids in one or two bytes, lengths in the first byte or up to three more, leading zeros included, if and only if its payload is there |
| Tlv.PartOfHeader | wakaama/data/tlv.c:281-343 | a header that is not there in full is not read |
| Tlv.WrittenHeader | wakaama/data/tlv.c:192-278 | a written header takes the fewest bytes: two for ids above 255, none for lengths up to 7 |
| Tlv.CutShort | wakaama/data/tlv.c:281-343 | an item cut short anywhere is not read, nor anything of it |
| Tlv.TailPassedOver | wakaama/data/tlv.c:345-403 | a tail that is no item is passed over, and what comes before it is read |
| Tlv.LeafWritten | wakaama/data/tlv.c:501-650 | a leaf is written as a resource, or inside a multiple resource as a resource instance, with its id and length |
| Tlv.ContainerWritten | wakaama/data/tlv.c:501-650 | an object instance and a multiple resource are written with their type, id and the length of their children |
| Tlv.BytesWritten | wakaama/data/tlv.c:501-650 | the payloads of text, opaque, links and booleans, byte by byte |
| Tlv.FewestBytes | wakaama/data/tlv.c:68-138 | integers are written in one, two, four or eight bytes, the fewest that hold them |
| Tlv.IntegersRead | wakaama/data/data.c:294-446 | any integer of one, two, four or eight bytes is read in two's complement or without sign; no other size is |
| Tlv.IntRoundTrip | wakaama/data/tlv.c:68-102 | every int64 survives its shortest encoding |
| Tlv.UIntRoundTrip | wakaama/data/tlv.c:104-138 | every uint64 survives its shortest encoding |
| Tlv.UIntReadAsInt | wakaama/data/data.c:294-365 | an unsigned value read as signed survives if and only if the top bit of its encoding is clear |
| Tlv.IntReadAsUInt | wakaama/data/data.c:375-446 | a signed value read as unsigned survives if and only if it is not negative |
| Tlv.LengthFailsIff | wakaama/data/tlv.c:406-499 | the length pass fails if and only if the tree holds something TLV cannot carry |
| TlvCodec.CreateHeader | wakaama/data/tlv.c:220-278 | the bytes written are the header and nothing outside it changes |
| TlvCodec.GetLength | wakaama/data/tlv.c:406-499 | the accumulating loop computes the length |
| TlvCodec.Serialize | wakaama/data/tlv.c:501-650 | as many bytes as the length pass promises are written, and they are the encoding; data of an unsupported type gives -1 and no buffer |
| TlvCodec.TlvParse | wakaama/data/tlv.c:345-403 | the loop reads exactly the specified tree |
| RegistrationOrder.PickIs | wakaama/core/registration.c:1018-1081 | the loop picks, of all ordered servers up for choice, one with the least order and the first of these |
| RegistrationOrder.StartShape | wakaama/core/registration.c:1018-1081 | a start changes only servers up for choice, at most one ordered one, and that is the chosen one |
| RegistrationOrder.StartsInOrderIff | wakaama/core/registration.c:530-590 | between two restarts ordered servers start in order and none twice, on every run, if and only if the restart did not skip one that should go first |
| RegistrationOrder.UnreadableReorders | wakaama/core/registration.c:1018-1081 | an unreadable server that failed earlier makes such a skip |
| RegistrationOrder.ReadableInOrder | wakaama/core/registration.c:1018-1081 | with every resource readable the order is kept on every run |
| RegistrationOrder.BlockingStopsAll | wakaama/core/registration.c:530-590 | after the final failure of a blocking server without bootstrap no ordered server starts on any run until the next restart |
| RegistrationOrder.SuccessStartsNextIff | wakaama/core/registration.c:681-701 | a success starts the next ordered server if and only if it came in the first sequence or the server does not block |
| RegistrationLaws.AnswerDecides | wakaama/core/registration.c:638-722 | a 2.01 makes a pending server registered as of now, a 2.31 only renews its time |
| RegistrationLaws.AcceptedIsRegistered | wakaama/core/registration.c:638-722 | and then over every run without restart it stays connected and is sent no further Register until an Update to it is refused |
| RegistrationLaws.ConnectedStays | wakaama/core/registration.c:2049-2130 | so does every server that is connected, whatever becomes of the others |
| RegistrationLaws.UnexpectedAnswer | wakaama/core/registration.c:638-722 | an answer to a server that is not pending changes nothing |
| RegistrationLaws.NextAttempt | wakaama/core/registration.c:592-628 | refused with attempts left, a server waits for its delay doubled with every attempt, by its resources or 5 attempts and 60 seconds |
| RegistrationLaws.NextSequenceStarts | wakaama/core/registration.c:530-590 | refused with sequences left, it waits for the delay between sequences and counts its attempts anew |
| RegistrationLaws.FinallyFails | wakaama/core/registration.c:530-590 | refused after the last sequence it has failed, and a bootstrap is asked for if and only if it was before or the server does not say that it wants none |
| RegistrationLaws.FailureStartsNextIff | wakaama/core/registration.c:530-546 | a refusal starts the next ordered server if and only if it ends the first sequence of an ordered one that does not block |
| RegistrationLaws.BlockingFailsOthers | wakaama/core/registration.c:556-590 | a blocking server that fails for good fails every ordered server not started yet if and only if it is ordered and wants no bootstrap |
| RegistrationLaws.UnreadableLimitFails | wakaama/core/registration.c:592-628 | with an unreadable limit or delay it fails at once |
| RegistrationLaws.UnreadableSequenceFails | wakaama/core/registration.c:530-590 | so does one with an unreadable sequence limit or delay, after its last attempt |
| RegistrationLaws.UpdateAnswerDecides | wakaama/core/registration.c:828-860 | a 2.04 makes the server registered as of now, a refusal fails it with the time, an unexpected answer changes nothing |
| RegistrationLaws.RefusedUpdateFails | wakaama/core/registration.c:828-860 | a refused Update ends this: the server has failed as of now |
| RegistrationLaws.UpdateIsNoted | wakaama/core/registration.c:934-1016 | an Update asked for is noted on a connected server, one with objects not being forgotten for one without |
| RegistrationLaws.TickVisits | wakaama/core/registration.c:2049-2130 | a step does to each server what its own fields say, due Registers and Updates 93 seconds before the end included, and logs exactly the Registers that go out |
| RegistrationLaws.StartHandles | wakaama/core/registration.c:1018-1081 | a start begins with every unordered server up for choice before the first unreadable one, and with the first in order of the others, each after its initial delay with counters at zero; the result is that of the last start made, or tells whether the loop came to the end |
| RegistrationOrder.LateSuccessStrands | wakaama/core/registration.c:681-701 | a blocking server that registers later leaves the remaining servers unstarted on every run |
| RegistrationOrder.FailedStaysFailed | wakaama/core/registration.c:1018-1081 | a failed server is never touched again before a restart |
| RegistrationOrder.RestartRevivesOne | wakaama/core/registration.c:1018-1081 | of the failed ordered servers a restart revives only the one it starts |
| RegistrationRetries.WithinBudget | wakaama/core/registration.c:379-475 | over every run a server gets at most max(1, attempts) * max(1, sequences) requests per start, and no byte counter wraps |
| RegistrationRetries.GivesUpIff | wakaama/core/registration.c:530-628 | a refused server fails for good if and only if the budget is used up, not earlier and not later |
| RegistrationRetries.AttemptCounts | wakaama/core/registration.c:816-823 | every request moves (sequence, attempt) on by one within the budget |
| RegistrationRetries.TickOnTime | wakaama/core/registration.c:2049-2130 | a step sends every Register and Update that is due, unless the message could not go out, and returns a timeout no later than the next due time of any server |
| RegistrationEngine.Client.Start | wakaama/core/registration.c:1018-1081 | the loop updating the servers in place does the specified start |
| RegistrationEngine.Client.HandleSequenceFailure | wakaama/core/registration.c:530-590 | the whole state after a failed sequence, other servers included |
| RegistrationEngine.Client.HandleAttemptFailure | wakaama/core/registration.c:592-628 | the whole state after a failed attempt |
| RegistrationEngine.Client.HandleReply | wakaama/core/registration.c:638-722 | the whole state after any answer to a Register |
| RegistrationEngine.Client.HandleUpdateReply | wakaama/core/registration.c:828-860 | the server's state after any answer to an Update, no other server touched |
| RegistrationEngine.Client.SendRegister | wakaama/core/registration.c:725-826 | counters, status and log after one Register request |
| RegistrationEngine.Client.Step | wakaama/core/registration.c:2049-2130 | the loop over the servers does the specified tick |
| RegistrationEngine.Client.GetStatus | wakaama/core/registration.c:1089-1127 | pending if and only if some server is on its way; failed if and only if all are failed or deregistered |
| LinkFormat.PrintsAllIff | wakaama/core/objects.c:781-876 | in a buffer of the computed length the payload is printed in full, two bytes shorter than the buffer, if and only if there is no OSCORE object |
| LinkFormat.PayloadFits | wakaama/core/objects.c:878-992 | any buffer larger than the text holds it in full, less its last separator |
| LinkFormat.SmallBuffer | wakaama/core/objects.c:878-992 | a buffer no larger than the text is an error unless the last object printed has a version and no instances; then, short by its last few bytes, the payload is printed without one or both of the numbers |
| LinkFormat.NothingToPrint | wakaama/core/objects.c:878-992 | with no object to print the head alone is printed, or does not fit |
| LinkFormat.VersionLost | wakaama/core/objects.c:781-992 | with an OSCORE object before it, the version 255.25 of the last object is sent as a lone dot from a buffer of the computed length |
| LinkPrinter.GetRegisterPayload | wakaama/core/objects.c:878-992 | the indices advanced over the buffer leave exactly the specified text at its start |
| LinkPrinter.GetRegisterPayloadBufferLength | wakaama/core/objects.c:781-876 | the length pass computes the specified length |
| LinkPrinter.PrintTemplate | wakaama/core/objects.c:757-779 | an object's prefix is written, or the failure is reported |
| LinkPrinter.StringCopy | wakaama/core/utils.c:939-955 | the string is copied if it fits with its terminator, and nothing outside the range changes |
| LinkParser.RegistrationRoundTrip | wakaama/core/registration.c:1621-1706 | what a client prints into its own buffer, up to 65536 characters, a server parses back to the same non-Security objects, versions and instances |
| LinkParser.PayloadReadBack | wakaama/core/registration.c:1621-1706 | the parser undoes the printer on every sorted object list whose text fits its 16-bit positions |
| LinkParser.DecodeProper | wakaama/core/registration.c:1621-1706 | whatever the payload, the objects read from it are sorted, with no id twice and no reserved id, and so are the instances of each |
| LinkParser.DecodesIff | wakaama/core/registration.c:1621-1706 | a payload is parsed if and only if every item is a link or, once at most, the root; it gives objects if and only if one item is a link |
| LinkLaws.ObjectLinkIff | wakaama/core/registration.c:1464-1613 | a link to an object is read if and only if its id is the numeral of one below 65535 and its version is well-formed |
| LinkLaws.InstanceLinkIff | wakaama/core/registration.c:1464-1613 | so is a link to an instance, by both ids |
| LinkLaws.NoBracketNoLink | wakaama/core/registration.c:1464-1613 | without its opening, or its closing bracket, nothing is a link |
| LinkLaws.TrimmedAlike | wakaama/core/registration.c:1464-1613 | blanks at the end of an item do not matter |
| LinkLaws.PlainVersionIff | wakaama/core/registration.c:1464-1613 | a version is read if and only if both of its numbers fit a byte |
| LinkLaws.QuotedVersionIff | wakaama/core/registration.c:1464-1613 | so is one in quotes |
| LinkLaws.SecondVersion | wakaama/core/registration.c:1464-1613 | a second version is an error |
| LinkLaws.OtherAttribute | wakaama/core/registration.c:1464-1613 | an attribute that is not a version is passed over |
| LinkLaws.RootIs | wakaama/core/registration.c:1353-1462 | the root link gives the alternate path and the format its attributes announce |
| LinkLaws.RootAttribute | wakaama/core/registration.c:1353-1462 | each attribute of the root: the resource type must be oma.lwm2m and come once, the content format must be known and come once, others are passed over |
| LinkLaws.ShortValues | wakaama/core/registration.c:1308-1351 | a value of one character, or none at all, is no attribute; an empty one before another is |
| LinkLaws.BlanksAround | wakaama/core/registration.c:1308-1351 | blanks around a value are taken off, and then one of a single character is refused |
| LinkLaws.RootDecides | wakaama/core/registration.c:1621-1706 | format and alternate path of a payload are those of its root, and without a root TLV and none |
| LinkLaws.LinkAdds | wakaama/core/registration.c:1621-1706 | a link changes the entry of its object only: one to an instance adds the instance, one to the object sets the version |
| LinkLaws.PayloadStarts | wakaama/core/objects.c:878-992 | a payload begins with the path, the resource type and the content format |
| LinkParser.LinkReadBack | wakaama/core/registration.c:1464-1613 | a single link gives back its ids and version |
| LinkParser.SplitIs | wakaama/core/registration.c:1308-1351 | an attribute written key=value is taken apart into these and the rest |
| LinkReader.ReadLink | wakaama/core/registration.c:1464-1613 | the index-advancing loops over ids, attributes and version read the specified link |
| LinkReader.ReadAttribute | wakaama/core/registration.c:1308-1351 | the loops split as specified |
| LinkReader.ReadRoot | wakaama/core/registration.c:1353-1462 | the backward search for the path and the attribute loop read format and path of the root as specified |
| LinkReader.DecodeRegisterPayload | wakaama/core/registration.c:1621-1706 | the loop over the payload, errors included, gives what is specified by splitting it first |
| Decimal.TextToUIntIff | wakaama/core/utils.c:105-132 | a text is read as the number it denotes if and only if it is a numeral below 2^64 |
| Decimal.TwoToThe64ReadsAsZero | wakaama/core/utils.c:105-132 | the overflow check misses the last digit |
| Decimal.NumberIff | wakaama/core/uri.c:57-93 | a text without a slash is a number if and only if it is a numeral, and then the one it denotes |
| Decimal.DigitsReadBack | wakaama/core/utils.c:235-265 | printed numbers are read back |
| Decimal.UintToText | wakaama/core/utils.c:235-265 | the digits, moved to the start of the range, or zero when they do not fit |
| Decimal.ReadUInt | wakaama/core/utils.c:105-132 | the loop reads as specified |
| Registry.RegistryAlways | wakaama/core/registration.c:1766-2035 | over every run in which a new name registers only while an id is left, ids are strictly sorted and usable and no name is registered twice |
| Registry.NewIdUsableIff | wakaama/core/registration.c:1849-1896 | a new client's id is the smallest free one, usable if and only if fewer than 65535 clients are there |
| Registry.LeavesIff | wakaama/core/registration.c:1766-2035 | a client keeps id and name in a step if and only if the step is not its Deregister or the end of its life |
| RegistryLaws.LeaseDecides | wakaama/core/registration.c:1766-2159 | over every run a client is gone with the first Deregister of it, or step at or after its last accepted Register or Update plus the lifetime then in force, and there until then |
| RegistryLaws.UpdateDecides | wakaama/core/registration.c:1899-2003 | after an Update answered 2.04 the end of life is now plus the lifetime, the one given or else the old one, and the session is the one it came from; id and name stay |
| RegistryLaws.RegisterKnown | wakaama/core/registration.c:1849-1896 | a Register of a known name sets session, lifetime, end of life and objects, and nothing else |
| RegistryLaws.RegisterNew | wakaama/core/registration.c:1849-1896 | a Register of a new name lists a client with the smallest free id, 86400 seconds when no lifetime is given |
| RegistryLaws.RegisterRefusals | wakaama/core/registration.c:1780-1848 | a complete Register is answered 4.12 if and only if its version is not supported, an incomplete one 4.00 |
| RegistryLaws.UpdateRefusals | wakaama/core/registration.c:1899-1943 | an Update is answered 4.04 if and only if it can be read and no client has the id |
| RegistryLaws.DeregisterDecides | wakaama/core/registration.c:2006-2030 | a Deregister removes exactly the client of the path and is answered 2.02, or is answered 4.00 and changes nothing |
| Registry.StepExpires | wakaama/core/registration.c:2131-2159 | exactly the clients whose life has ended leave, each reported, and the timeout is no later than the next end |
| Registry.UpdateDropsGone | wakaama/core/registration.c:1947-1999 | after an accepted Update whose payload lists objects, an observation is left if and only if that list mentions it, in the old order, and each other one is reported exactly once; without a list all are left; no other client changes |
| Registry.KeptIs | wakaama/core/registration.c:1947-1999 | on decoded lists an observation is kept if and only if some object in the list has its object id and, if its instance is set, that instance |
| Registry.PresentIff | wakaama/core/list.c:47-58 | on decoded lists the two searches that stop early find whatever is there |
| Registry.RegisteredIff | wakaama/core/registration.c:1780-1896 | a Register is answered 2.01 if and only if its query is complete and every item of its payload is a link or, once at most, the root, with one link at least; otherwise nothing changes |
| Registry.UpdatedIff | wakaama/core/registration.c:1899-2003 | an Update is answered 2.04 if and only if its query can be read, gives no name, and the path is the one of a client, whatever the payload; otherwise nothing changes |
| Registry.ObjectsReplacedIff | wakaama/core/registration.c:1945-2003 | an accepted Update replaces the objects if and only if its payload is readable in that way and holds a link; if not it does exactly what an Update without a payload does |
| Registry.MalformedUpdateAccepted | wakaama/core/registration.c:1899-2003 | the payload "x" is no link and no root; a Register with it is refused, an Update with it is answered 2.04 and keeps objects and observations |
| RegistryEngine.Server.GetClientByName | wakaama/core/registration.c:1708-1720 | the first client with the name, or none |
| RegistryEngine.Server.AdmitClient | wakaama/core/registration.c:1849-1896 | a known name is reset in place, a new one gets a new entry |
| RegistryEngine.Server.DropObservations | wakaama/core/registration.c:1947-1999 | the loop removing from the list it walks keeps exactly the specified observations |
| RegistryEngine.Server.HandlePostRequest | wakaama/core/registration.c:1766-2005 | Register and Update, from the payload as text and with all their refusals, do the specified step |
| RegistryEngine.Server.HandleDeleteRequest | wakaama/core/registration.c:2006-2030 | Deregister does the specified step |
| RegistryEngine.Server.Step | wakaama/core/registration.c:2131-2159 | the loop over a list that shrinks under it expires as specified |
| Observe.NeverTooSoon | wakaama/core/observe.c:585-839 | with pmin not above pmax no two notifications are less than pmin apart, on every run |
| Observe.TooSoonIff | wakaama/core/observe.c:640-760 | a step breaks pmin if and only if pmax is over, and then pmax is below pmin |
| Observe.TooSoonPossible | wakaama/core/observe.c:640-760 | every watcher with pmin above pmax has a run that breaks pmin |
| Observe.NeverTooLate | wakaama/core/observe.c:585-839 | if every step comes within the timeout returned before, no two notifications are more than pmax apart, on every run |
| Observe.PendingChangeGoesOut | wakaama/core/observe.c:585-839 | over every run a change on a pmin watcher is not sent before lastTime + pmin, is not lost, and goes out at the first step from then on |
| Observe.PendingChangeInTime | wakaama/core/observe.c:585-839 | in a punctual run, from the step that first sees a change on, the next step is always due by lastTime + pmin |
| Observe.AttributeTakesEffectIff | wakaama/core/observe.c:387-430 | each of the five attributes, when written, takes effect if and only if the watcher had no attributes or had that one |
| Observe.OtherAttributesStay | wakaama/core/observe.c:387-430 | writing attributes clears those asked for, changes the given ones that were set, and leaves the others |
| Observe.PlainChangeGoesOut | wakaama/core/observe.c:595-601 | a change of a resource observed without attributes, or with none set, is notified in the very next step, at any time, and is then no longer pending |
| Observe.CrossingGoesOut | wakaama/core/observe.c:585-839 | with thresholds and no pmin it is notified in the next step if and only if one was crossed or pmax is over |
| Observe.OnlyMaximumWaits | wakaama/core/observe.c:585-839 | with pmax alone a change does not hasten the notification |
| Observe.QuietIsSilent | wakaama/core/observe.c:585-839 | without a change a notification is sent if and only if pmax is over, and none when inactive |
| Observe.AsksInTime | wakaama/core/observe.c:640-839 | the timeout is the one given, or the end of pmin of a waiting change, or of pmax, whichever is first |
| Observe.UnserializedChangesNothing | wakaama/core/observe.c:640-839 | when the resource cannot be serialized no watcher changes, and the step asks to be called again for those it came to |
| ObserveEngine.Context.Step | wakaama/core/observe.c:515-839 | the nested loops over observed resources and watchers, updated in place, do the specified step for every one |
| ObserveEngine.StepListsIs | wakaama/core/observe.c:515-839 | in a whole step with successful reads every watcher is stepped as it would be alone, and the timeout is within what each allows |
| ObserveRuns.RunIsLife | wakaama/core/observe.c:469-839 | every run of a client is, for each of its watchers, the run of that watcher alone through the same events, with the same things sent at the same times |
| ObserveRuns.EveryWatcherInTime | wakaama/core/observe.c:515-839 | on every punctual run of a client, in the record of what each watcher was sent no entry comes more than pmax after the one before, and the run does not end later than that |
| ObserveRuns.EveryWatcherUnhurried | wakaama/core/observe.c:515-839 | on every run of a client, in the record of what each watcher was sent no notification comes less than pmin after the entry before, for pmin not above pmax |
| ObserveRuns.PlainChangeReachesAll | wakaama/core/observe.c:469-839 | in a client, a change of an observed resource reaches every active watcher without attributes in the next step |
| ObserveRuns.RecordFitsWatcher | wakaama/core/observe.c:515-839 | that record has an entry for each increase of the watcher's counter, nothing in it is changed later, and its last entry is at lastTime |
| ObserveEngine.WatcherNode.Round | wakaama/core/observe.c:640-839 | one watcher, a failed serialization included |
| ObserveEngine.ObservedNode.Tag | wakaama/core/observe.c:469-512 | exactly the active watchers are marked |
| Cbor.SequenceRoundTrip | wakaama/data/cbor.c:520-586 | any list of integers, booleans, strings and links written back to back is read back, each read taking exactly its own bytes |
| Cbor.SingularReadBack | wakaama/data/cbor.c:193-270 | one value is read back whatever follows it |
| Cbor.TaggedReadBack | wakaama/data/cbor.c:193-270 | one tag before a value is skipped and counted |
| Cbor.TwoTagsRefused | wakaama/data/cbor.c:193-270 | a second tag is an error |
| Cbor.HeadRoundTripIff | wakaama/data/cbor.c:57-191 | type and value are read back if and only if they are not the break, simple value 255, or a negative integer without sign bit |
| Cbor.BreakReadsAsNumber | wakaama/data/cbor.c:469-518 | a written break reads as the number 31 |
| Cbor.AnyHeadRead | wakaama/data/cbor.c:57-191 | every head of any writer is read with the value it denotes, leading zeros included; a negative integer is refused if and only if it does not fit 64 bits with its sign |
| Cbor.PartOfHead | wakaama/data/cbor.c:57-191 | a head that is not there in full is not read |
| Cbor.ReservedHead | wakaama/data/cbor.c:57-191 | reserved lengths are refused |
| Cbor.IndefiniteReadsAs31 | wakaama/data/cbor.c:57-191 | an indefinite length is taken for 31, and only the break is told apart |
| Cbor.WrittenHead | wakaama/data/cbor.c:293-354 | the width written for each value; the largest value of a width takes the next one |
| Cbor.ValueIs | wakaama/data/cbor.c:193-270 | what each head stands for as a value: strings must be there in full, containers, breaks and simple values other than booleans are refused |
| Cbor.LinkIff | wakaama/core/utils.c:172-195 | two numerals with a colon between them are a link if and only if both fit 16 bits |
| Cbor.ObjLinkRoundTrip | wakaama/core/utils.c:172-195 | a link comes back as text that names the same ids |
| CborCodec.SerializeValue | wakaama/data/cbor.c:293-354 | the shortest head is written, or zero when it does not fit, and nothing else changes |
| CborCodec.CborPutSingular | wakaama/data/cbor.c:520-586 | the encoding is written at its place and its length returned, or zero; no floats |
| CborCodec.GetTypeAndValue | wakaama/data/cbor.c:57-191 | the switch over the first byte reads the specified head, truncated input included |
| CborCodec.CborGetSingular | wakaama/data/cbor.c:193-270 | the tag loop and the value branches read the specified value |
| CborCodec.ReadObjLink | wakaama/core/utils.c:172-195 | the scan for the colon reads the specified ids |
| Senml.GroupingLosesNothing | wakaama/data/senml_common.c:23-99 | for records at prefix-free paths the tree holds exactly their values at their paths, and no container holds an id twice |
| Senml.InstanceDistinctIff | wakaama/data/senml_common.c:23-99 | a container of resource instances keeps its ids distinct if and only if the added id is new |
| Senml.StripIs | wakaama/data/senml_common.c:220-262 | stripping loses and changes nothing at any level |
| Senml.InsertAdds | wakaama/data/senml_common.c:23-99 | one record adds its value at its path and leaves every other path as it was |
| Senml.InsertPlaces | wakaama/data/senml_common.c:23-99 | whatever the record, items stay at their places, a new one comes last, and only the one with the id of the record changes |
| Senml.ObjectAdded | wakaama/data/senml_common.c:23-99 | a record for an object that is not there yet adds it at the end, with exactly what its ids and value say below it, incomplete ids included |
| Senml.GroupFound | wakaama/data/senml_common.c:23-99 | an item that is there takes the rest of the record below it, and becomes a multiple resource with a resource instance |
| Senml.RefusedFailsAll | wakaama/data/senml_common.c:78-97 | one value that cannot be converted fails the whole |
| Senml.AppendAdds | wakaama/data/data.c:874-900 | an appended entry is found at its own path and hides no other |
| Senml.FindDataItem | wakaama/data/senml_common.c:267-278 | the loop finds the first entry with the id |
| Senml.AppendOne | wakaama/data/data.c:874-900 | the new array holds the old entries and then the new one |
| Senml.DataStrip | wakaama/data/senml_common.c:220-262 | the copying loop gives the specified tree |
| Senml.ConvertRecords | wakaama/data/senml_common.c:23-99 | the loop over the records builds the specified tree; the walk down the levels of one record is the specification's own |
| Uri.UriToStringIff | wakaama/core/uri.c:289-355 | printing gives the text, of at most 24 characters, if and only if the buffer holds it |
| Uri.UriRoundTripIff | wakaama/core/uri.c:220-287 | a URI survives printing and reading, with the full length returned, if and only if no id is set after one that is not |
| Uri.TextReadBack | wakaama/core/uri.c:220-287 | what is read back are the ids before the first one not set |
| Uri.SegmentsAgree | wakaama/core/uri.c:95-216 | any one to four path segments, well-formed or not, leading zeros included, are decoded if and only if their text is read, to the same URI |
| Uri.PathAcceptedIff | wakaama/core/uri.c:95-216 | any path is read if and only if it has at most four segments, the first of them numerals of ids below 65535 and all after these empty, and the ids are these numbers in order |
| Uri.OtherPaths | wakaama/core/uri.c:95-216 | no segment, or an empty first one, stands for the root, which a DELETE empties; rd and bs |
| Uri.RegistrationPath | wakaama/core/uri.c:95-216 | the path of a registration names the client by the numeral of its id; an empty segment stands for client 0 |
| Uri.BlanksBefore | wakaama/core/uri.c:220-287 | blanks before a text do not matter, and any first character but a slash is an error |
| Uri.ReadNumber | wakaama/core/uri.c:57-84 | the loop reads the specified number and stops at its end |
| Uri.ReadUri | wakaama/core/uri.c:220-287 | the chain of optional ids is read as specified |
| Base64.RoundTrip | wakaama/core/utils.c:986-1142 | every byte string survives encoding and decoding |
| Base64.SizesAgree | wakaama/core/utils.c:995-1079 | the sizes predicted for encoding and for decoding are the real ones |
| Base64.DecodeSize | wakaama/core/utils.c:1092-1142 | whatever text is accepted, the bytes written are as many as predicted |
| Base64.UnpaddedReadBack | wakaama/core/utils.c:1092-1142 | the padding may be left out: every byte string survives all the same |
| Base64.PaddingIs | wakaama/core/utils.c:1005-1048 | the text is padded with one = for each byte missing from its last group |
| Base64.ForeignIsRefused | wakaama/core/utils.c:1081-1142 | a text with a character outside the alphabet before any padding is refused |
| Base64.AlphabetIs | wakaama/core/utils.c:978-984 | exactly the 64 symbols have a value, and it is their place in the alphabet |
| Base64.EncodeInto | wakaama/core/utils.c:1005-1048 | the buffer holds the encoding, or zero is returned when it is too small |
| Base64.DecodeInto | wakaama/core/utils.c:1092-1142 | the buffer holds the decoded bytes, or zero is returned |
| Bootstrap.DeleteAllClears | wakaama/core/bootstrap.c:974-1031 | when no callback refuses, the Security object keeps the requesting server's own instance only, every other deletable object is empty, every other server is marked, static objects stay, the result is 2.02 |
| Bootstrap.PurgeLeavesOwn | wakaama/core/bootstrap.c:993-1014 | the loop that starts again at the head deletes every other instance once, in order |
| Bootstrap.PurgeSucceedsIff | wakaama/core/bootstrap.c:993-1014 | the loop ends with success if and only if nothing it has to delete refuses |
| Bootstrap.PurgeLoses | wakaama/core/bootstrap.c:993-1014 | whatever refuses, exactly the instances before the first refusal are gone and the own one never is |
| Bootstrap.PurgeReports | wakaama/core/bootstrap.c:993-1014 | the loop reports the code of the first other instance that cannot be deleted, 4.05 in a static object |
| Bootstrap.ClearIs | wakaama/core/objects.c:627-652 | an object loses its instances up to the first that refuses, whose code is the result |
| Bootstrap.DeleteAllIs | wakaama/core/bootstrap.c:974-1031 | every object fares as it would alone, and the result is the last one's |
| Bootstrap.ErrorReportedIff | wakaama/core/bootstrap.c:974-1031 | an error is reported if and only if the last object, which may be the Security object, has one |
| Bootstrap.UnnoticedFailure | wakaama/core/bootstrap.c:974-1031 | the Security object is left as it was and the result is 2.02 |
| Bootstrap.MarksStayRightIff | wakaama/core/bootstrap.c:732-752 | every unmarked server still has its Security instance if and only if the purge ends well or no instance of an unmarked server was deleted before it failed |
| Bootstrap.MarksGoWrong | wakaama/core/bootstrap.c:993-1018 | a concrete refusal after which an unmarked server has no Security instance any more |
| Bootstrap.DeleteKeepsMarks | wakaama/core/bootstrap.c:851-914 | every other delete request keeps the marks right |
| Bootstrap.SecurityAlone | wakaama/core/bootstrap.c:851-914 | deleting the Security object does to it and to the marks what deleting everything does, and reports its own outcome |
| Bootstrap.InstanceDecides | wakaama/core/objects.c:611-657 | deleting one instance: it alone goes, or the reason why not is the answer and nothing changes |
| Bootstrap.InstancePath | wakaama/core/bootstrap.c:851-914 | a path to an instance changes its object only, and no mark unless it is a Security instance that went |
| Bootstrap.ObjectPath | wakaama/core/bootstrap.c:851-914 | a path to another object empties it, or is answered 4.05 when it is static; every other object stays |
| Bootstrap.RefusedPaths | wakaama/core/bootstrap.c:851-914 | a path to a resource is answered 4.00, one to an object that is not there 4.04, or 2.02 for the Security object; nothing changes |
| Bootstrap.MarkIs | wakaama/core/bootstrap.c:716-730 | exactly the bootstrap server or server of the instance is marked |
| BootstrapEngine.Context.ObjectDelete | wakaama/core/objects.c:611-657 | the loop over the instance list the callback shrinks ends, and deletes as specified |
| BootstrapEngine.Context.PurgeSecurity | wakaama/core/bootstrap.c:993-1014 | the loop ends, and deletes as specified |
| BootstrapEngine.Context.TagAllServer | wakaama/core/bootstrap.c:732-752 | every server but one is marked, nothing else changes |
| BootstrapEngine.Context.TagServer | wakaama/core/bootstrap.c:716-730 | at most one server is marked, a bootstrap server first |
| BootstrapEngine.Context.HandleDeleteAll | wakaama/core/bootstrap.c:974-1031 | the loop over the objects does the specified deletion |
| BootstrapEngine.Context.HandleDelete | wakaama/core/bootstrap.c:851-914 | every path of the DELETE branch, errors included, does the specified step |

## Left out

- BlockTransfer.Handle: Block1 and Block2 entries share one list and one identifier union; the model keeps their identifiers distinct. `LWM2M_RAW_BLOCK1_REQUESTS`, the temporary client of a Block1 registration and the retry after 4.13 are not modelled.
- BlockProtocol.TransferSafe: copies of block 0 that arrive after block 1 was stored are shut out, because the property is false then (`LateBlockSpoilsIff`); the block size of the request does not change on the way.
- BlockProtocol.TransferPossible: message ids of one upload are distinct in the model, so there are at most 65536 blocks; the reuse of an id after its exchange lifetime is not modelled.
- BlockLateness.LateBlockSpoilsIff: at most 65536 blocks, as for `BlockProtocol.TransferPossible`.
- SortedList: the lists of transactions, clients, observations, watchers, servers, objects and blocks are sequences of objects; that pointer surgery implements the sorted ones is proved once, on `SortedList.Node`.
- TransactionEngine.Context.Response: callbacks are log entries; a callback that itself queues or removes transactions is not modelled, nor is the session comparison (peers are numbers).
- Transactions: `1 << (attempt - 1)` and the back-off product are mathematical; the C expression overflows for large retry limits.
- LinkFormat: the root link is the one of a build with SenML-CBOR (`ct=112`); the variants of `wakaama/core/internals.h:160-168` with another content type or none are not modelled.
- TlvCodec.Serialize: supported data with a payload of 2^24 bytes or more, whose length does not fit a header.
- Tlv.RoundTrip: payloads of 2^24 bytes and more have no header; floats, and values stored as text, are not modelled.
- RegistrationEngine: the Server object is taken as present and its resources as stable during a run; deregistration is a status only, the query string and sessions are left out. `registration_start` returns the result of the first ordered start when it makes one, an earlier error being overwritten.
- LinkParser.PayloadReadBack: for the default path, and for payloads the 16-bit positions of the parser can hold; longer ones wrap, which the parser models. `LWM2M_OLD_CONTENT_FORMAT_SUPPORT` is left out.
- LinkParser.RegistrationRoundTrip: as for `LinkParser.PayloadReadBack`.
- LinkParser.Split: attribute values of one character are refused and empty ones accepted, as in the code; the byte read past an item is the separator or the end of the payload.
- Registry: binding, telephone number, version and location string of a client, and registrations in blocks; re-registration keeps the observations, as the code does.
- Registry.RegistryAlways: a client with a new name registers while fewer than 65535 clients are there; beyond that its id is the reserved one (`NewIdUsableIff`). Known names and Updates are not restricted.
- RegistryEngine.Server.AdmitClient: a new name is added while fewer than 65536 clients are there; then the 16-bit id wraps.
- RegistryEngine.Server.HandlePostRequest: as for `RegistryEngine.Server.AdmitClient`.
- Observe: the comparison of values with lt, gt and step is one boolean per watcher and step (doubles are not modelled); reading a resource, and the search for the observation by path prefix, are inputs.
- Cbor: half, single and double floats are raw bits, never converted; the values of arrays and maps are not modelled, only their heads.
- CborCodec.CborPutSingular: a string, opaque or core link is given room for all its bytes by the caller, as the code requires, which checks the room for the head only; floats are not written.
- Senml.ConvertRecords: children are grown in place through pointers in the code; the model rebuilds the containers on the way down.
- Senml: base names and times, the selection of the sub-tree asked for, and the tokenizers of JSON, SenML-JSON and SenML-CBOR. The tree is a value; arrays grow in `AppendOne` alone. A record that overwrites a value or passes below one has no result in the model.
- Uri.SegmentsAgree: the alternate path in `uri_decode`, and a zero-length buffer given to `lwm2m_uriToString`, whose size then wraps. The accumulator of `prv_parseNumber` is unbounded.
- Bootstrap: the status of the requesting server, Bootstrap-Write, Read, Discover and Finish. Instance id 65535, which a URI cannot name, does not occur; a delete callback that reports success removes its instance.
- Base64: text outside the alphabet is refused symbol by symbol as in the code; line breaks have no meaning.
- CoAP packet parsing and serialization, sockets, sessions, DTLS and logging; `lwm2m_step` and its states; the dashboard, the deployment scripts and the example programs.

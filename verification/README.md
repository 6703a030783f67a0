# Packet capture: a verified model

The packet capture command receives two unordered streams: wire packets and the plaintext of TLS
calls. It attaches each plaintext record to the packet that carried it, writes the packets to a
pcapng file and the records to a JSONL file, shows both in a table, copies the TLS key log into the
capture file, and shuts all of this down in order. This project models that behaviour in Dafny and
proves what it is meant to guarantee.

`dafny verify dfyconfig.toml` checks everything.

| module | what it holds |
|---|---|
| `Records` | agent records (a Go map of dynamic values) and the readings taken from them: addresses, ports, connections, direction, time stamps |
| `Scoring` | capture-filter hints and the score of a packet for a record |
| `Exports` | the exported record: overlay of a confirmed packet, or the clean-up of a record without one |
| `BufferSpec` | the correlation buffer as a state machine: scan, attempt, pass, expiry and the four operations |
| `ScanProofs`, `BufferProofs`, `RunProofs` | what one scan decides, what each operation keeps, what holds of whole runs |
| `PassProofs` | what each operation does for the waiting records and for what is overdue |
| `WireBuffer` | the buffer as objects that are updated in place; each method computes the step of `BufferSpec` |
| `Collector` | the record gate in front of the buffer and the lines of the JSONL file |
| `Display` | the time-sorted, truncated display buffers and the rows shown |
| `JsonSlice` | cutting JSON objects out of bytes |
| `Utf8Display` | truncating and escaping text |
| `Keylog` | the key-log offset protocol |
| `StopProtocol` | the collector's deferred clean-up and the goroutines that call stop |
| `SignalExit` | the termination signal on top of it: stop, else emergency flush, then an exit that skips every deferred call |

Conventions:

- Time is an integer number of nanoseconds. Every operation takes its clock readings as inputs, and
  each matching attempt has two later readings of its own (`Reading`), one for each `time.Since`.
  Nothing is assumed about the readings, except where a lemma says `InOrder`.
- `Env` bundles the functions of code that is not modelled: address parsing with its normal form,
  base64, the TCP payload length of a frame, lower-casing, payload unwrapping, preview text and
  comment text. Its only assumption is that a parsed address is not empty and parses to itself
  (`Env.Ok`). `Config.Ok` adds what the constructors of the source establish: a positive window, and
  filter addresses that come out of the address parser.
- `DistinctIds` is a hypothesis of the buffer's run theorems and is proved of everything the record
  gate sends to the buffer (`AdmitKeepsOk`).
- In `WireBuffer` the pcapng stream and the finished records are ghost sequences `written` and
  `exported`.

## Findings

- **The score threshold never decides.** Every packet that is accepted at all already clears
  `minAnnotationScore`, and tiers never compete for one record: the tier is a property of the record
  alone (`ThresholdAlwaysMet`, `TierIsFixedByRecord`). The comment on `scoreTimeBonusMax`
  (cmd/packet_capture_wire_buffer.go:34-37) gives the gap between tiers as the reason that a lower
  tier cannot win; in the code the reason is a stronger one.
- **Stop can return false too early.** `stopActivePacketCapture` is documented to wait for pending
  flushes. It returns false although the writer is still to be flushed exactly if it is called after
  the writer is created and before the stop function is set, or after the clean-up has cleared the
  stop function and before it has flushed the writer (`FalseWhileFlushIsPending`; both windows are
  reachable: `FalseMayComeBeforeRegistration`, `FalseMayComeBeforeTheFlush`). When it returned true,
  all of the clean-up has been done in order (`StopWaitsForCleanup`).
- **A termination signal can lose the end of the capture.** The handler calls stop, makes an emergency
  flush if that returned false, and exits without the deferred calls.
  - After a true result one thing can be lost: a block of TLS keys. Nothing waits for the goroutine
    that follows the key log, and it looks for the signal at the start of a tick only. A tick that
    is under way can write its block after the final flush, and no flush follows it
    (`SignalMayLoseKeys`). While the handler waits this is possible if and only if a tick is under
    way or such a block has been written already (`LateBlockPossibleIff`, `ExitLosesExactly`).
  - After a false result, and with nothing in between, the exit loses what the writer holds exactly
    in two windows, or if a key block has already come too late: the writer is created but not yet
    registered for the emergency flush, or the clean-up has cleared it and not yet flushed it
    (`UninterruptedExitLosesExactly`, `SignalMayLosePackets`). No packet is left in the correlation
    buffer then.
  - With other goroutines in between, `ExitLosesExactly` is the exact condition for the writer's
    bytes in every interleaving. Packets can then also be left in the correlation buffer, if and only
    if there is one and it still holds some or the clean-up has not begun (`HeldPossibleIff`,
    `SignalMayLoseHeldPackets`).
- **The table can miss rows beyond 200.** The show count can be raised without bound
  (cmd/display.go:109-114). The table is the newest rows of everything ever received, whatever that
  was, if and only if the show count is at most 200 (`AlwaysExactIff`); beyond it every history of
  more than 200 packets alone is cut short (`PacketsAloneAreCutShort`). For a given history the table
  is right if and only if the newest rows hold at most 200 packets and at most 300 plaintext records
  (`ShownIsNewestIff`).
- **Behind the record gate nothing is inferred.** Only complete records reach the buffer, so no
  waiting record is ever partial or latched (`GateKeepsPartialRecordsOut`). The hints, the lower
  tiers, the waiting for the window and the ambiguity latch act only for callers that bypass the
  gate; they are modelled and proved as they stand.

## Model

| member | source | states |
|---|---|---|
| Records.PortNameRoundTrip | cmd/packet_capture_wire_buffer.go:486-509 | a port printed as a number, with or without a service name in parentheses, reads back as that port, and a number above 65535 is refused |
| Records.PortTextMeaning | cmd/packet_capture_wire_buffer.go:495-509 | the texts read as a port are exactly spaces, digits, spaces and anything after an opening parenthesis, up to 65535 |
| Records.PortMeaning | cmd/packet_capture_wire_buffer.go:469-493 | which values of a field are read as which port, and that no others are |
| Records.AddressMeaning | cmd/packet_capture_wire_buffer.go:454-467 | which values are read as which address: text that parses, not unspecified in either form, in printed form |
| Records.TimestampMeaning | cmd/packet_capture_plaintext.go:24-34 | the event time in nanoseconds from raw fields: positive milliseconds, else positive seconds, else none |
| Records.LocalEndpointMeaning | cmd/packet_capture_wire_buffer.go:519-544 | which address and port are the local endpoint, and which address is the peer |
| Records.SameConnectionIsEquivalence | cmd/packet_capture_wire_buffer.go:511-517 | "equal or reversed tuple" is an equivalence relation |
| Scoring.EnrichKeepsWhatIsKnown | cmd/packet_capture_filters.go:64-111 | hints never replace a known source address or positive source port, touch only three fields, and leave complete records alone |
| Scoring.EnrichMeaning | cmd/packet_capture_filters.go:64-111 | which hint is written when: the single peer as source, the single port as source port, TCP, and in all other cases nothing |
| Scoring.EnrichIdempotent | cmd/packet_capture_filters.go:64-111 | applying the hints again changes nothing |
| Scoring.WirePacketMatchesCaptureFilters | cmd/packet_capture_filters.go:113-171 | the three loops decide: some listed port, some listed address and some listed network each occur at an end of the packet, for each kind of filter in use |
| Scoring.CompleteTupleSoundness | cmd/packet_capture_wire_buffer.go:668-696 | a complete record is accepted exactly by its own connection in its own direction (reversed for a read), zero ports and equal addresses included |
| Scoring.TierIsFixedByRecord | cmd/packet_capture_wire_buffer.go:641-659 | every packet accepted for a record has the same base score, which depends on the record and the filters alone |
| Scoring.TimeBonusRange | cmd/packet_capture_wire_buffer.go:594-616 | the bonus is within 0..10 for all times, with or without event times |
| Scoring.TimesMeaning | cmd/packet_capture_wire_buffer.go:586-592 | with both event times from 2 s before to 5 s after the packet, otherwise received at most 30 s apart |
| Scoring.PodIdentityMeaning | cmd/packet_capture_wire_buffer.go:753-774 | which pod a packet is taken to belong to, from raw fields |
| Scoring.PodCompatibleMeaning | cmd/packet_capture_wire_buffer.go:726-751 | which TLS sources a packet's pod allows |
| Scoring.AdmissibleMeaning | cmd/packet_capture_wire_buffer.go:668-696 | which addresses and ports of the packet the record demands, by direction, for complete and partial records |
| Scoring.RecordBaseMeaning | cmd/packet_capture_wire_buffer.go:776-862 | the tiers as numbers, from what the record knows |
| Scoring.PlaintextLenMeaning | cmd/packet_capture_wire_buffer.go:716-724 | the payload length of a record: its own count if positive, else what it carries |
| Scoring.PayloadBonusMeaning | cmd/packet_capture_wire_buffer.go:698-714 | 0, 20 or 25 by the two payload lengths |
| Scoring.ScoreMeaning | cmd/packet_capture_wire_buffer.go:618-716 | which packets are accepted, as an if-and-only-if with the time bounds written out, and score = base of the record + time bonus + payload bonus |
| Scoring.ThresholdAlwaysMet | cmd/packet_capture_wire_buffer.go:203-218 | a non-negative score always reaches the minimum annotation score |
| Scoring.ProximityClosedForm | cmd/packet_capture_wire_buffer.go:594-616 | the millisecond division gives exactly ten equal nanosecond slices of the limit |
| Scoring.TimeBonusMonotone | cmd/packet_capture_wire_buffer.go:586-616 | closer never scores lower: by event time on each side of zero, by receive time without event times, at any distance; full bonus for simultaneous events, none at the edges |
| Scoring.BonusClosedForm | cmd/packet_capture_wire_buffer.go:594-616 | the bonus as a single division of nanoseconds, on the three branches and outside their limits |
| Scoring.CloseDelaysAreAmbiguous | cmd/packet_capture_wire_buffer.go:586-616 | two accepted packets that precede the record by delays at most 2.5 s apart, with equal payload bonus, are within the ambiguity margin |
| Scoring.PayloadFrameWins | cmd/packet_capture_wire_buffer.go:698-716 | a frame with application bytes beats a frame without a TCP layer by more than the margin |
| Exports.DropEndpointK8sFields | cmd/packet_capture_wire_buffer.go:377-384 | the loop over map keys, in any order, removes exactly the endpoint metadata |
| Exports.CopyWireK8sFields | cmd/packet_capture_wire_buffer.go:401-438 | the loop over the packet's keys, in any order, fills in exactly the Kubernetes fields that have no meaningful value |
| Exports.OverlayCorrelatedWire | cmd/packet_capture_wire_buffer.go:369-399 | the steps together give `Overlay`, whatever the order of the keys |
| Exports.OverlayMeaning | cmd/packet_capture_wire_buffer.go:369-414 | after an overlay the five tuple fields and all endpoint metadata are the packet's, other Kubernetes fields are only filled in, every other field survives |
| Exports.KeyMeaning | cmd/packet_capture_wire_buffer.go:377-420 | the key classes by their texts |
| Exports.MeaningfulMeaning | cmd/packet_capture_wire_buffer.go:422-438 | only empty text, zero and nothing at all may be overwritten |
| Exports.DisplayMeaning | cmd/plaintext_format.go:279-288 | the display text is the preview, when there is one, and nothing else changes |
| Exports.AnnotatedMeaning | cmd/packet_capture_wire_buffer.go:254-263 | an annotated record is the overlay with display text and mark |
| Exports.UnmatchedMeaning | cmd/packet_capture_wire_buffer.go:271-287 | an unmatched record is cleaned up if the kernel vouches for it, else left as it is, and marked |
| Exports.SwappedMeaning | cmd/packet_capture_plaintext.go:97-113 | the swap moves every field to its counterpart and loses none; applied twice it is the identity |
| Exports.ScrubEndpoints | cmd/packet_capture_plaintext.go:86-93 | the key loop removes exactly the four tuple fields and the endpoint metadata |
| Exports.SwapEndpoints | cmd/packet_capture_plaintext.go:99-113 | delete-then-rewrite over any key orders is the swap |
| Exports.PrepareUnmatchedPlaintext | cmd/packet_capture_plaintext.go:85-114 | the method computes the clean-up of the specification in each of its three branches |
| Exports.PrepareUnmatchedMeaning | cmd/packet_capture_plaintext.go:85-114 | a verified record keeps its connection; a read exchanges the Src and Dst fields of every suffix, anything else is unchanged; an unverified one loses exactly the endpoint fields |
| Exports.OrientationIndependentOfMatching | cmd/packet_capture_wire_buffer.go:271-287 | for a verified record the exported connection is the same annotated or not |
| Exports.ExportKeepsId | cmd/packet_capture_wire_buffer.go:255-287 | both kinds of export keep the record's packet id and say truthfully whether a packet carries it |
| ScanProofs.AdjacentComparisonSuffices | cmd/packet_capture_wire_buffer.go:168-181 | comparing each accepted tuple with the last one only is enough to notice any two different connections |
| ScanProofs.ScanSeesEveryConnection | cmd/packet_capture_wire_buffer.go:163-201 | the flag is set exactly if some pair of accepted packets, consumed ones included, belongs to different connections |
| ScanProofs.ScanFindsTopTwo | cmd/packet_capture_wire_buffer.go:163-201 | one pass finds the earliest best free packet and the best score among the other free ones |
| ScanProofs.TryMatchesExactlyTheWinner | cmd/packet_capture_wire_buffer.go:239-263 | an attempt matches exactly if the record is not latched and one free packet stands out by more than the margin (and, for a partial record, waiting is over); it changes that packet only, and a refusal changes nothing but hints and latch |
| ScanProofs.CompleteMatchesIffWinner | cmd/packet_capture_wire_buffer.go:239-253 | a complete record is matched exactly if one free packet is accepted and every other one is refused or trails by more than 5 |
| BufferProofs.TryAccepted | cmd/packet_capture_wire_buffer.go:254-263 | a match adds one annotation for one export, keeps every earlier annotation, and a complete record comes with its own connection |
| BufferProofs.PassKeeps | cmd/packet_capture_wire_buffer.go:227-237 | a pass only adds annotations, and leaves every waiting record as its original plus hints, latched if connections compete |
| BufferProofs.PassClaims | cmd/packet_capture_wire_buffer.go:227-237 | the annotations made in a pass are, as a multiset of record id and packet, those of the records exported in it |
| BufferProofs.PassSources | cmd/packet_capture_wire_buffer.go:227-237 | no waiting record is lost or doubled by the in-place compaction |
| BufferProofs.MatchAllKeeps | cmd/packet_capture_wire_buffer.go:227-237 | the books balance over the whole state after a pass |
| BufferProofs.SelectPacketsClaims | cmd/packet_capture_wire_buffer.go:306-314 | expiry splits the annotations, none lost or doubled |
| BufferProofs.FlushExpiredKeeps | cmd/packet_capture_wire_buffer.go:303-329 | window expiry keeps the invariant and all records |
| BufferProofs.AppendKeeps | cmd/packet_capture_wire_buffer.go:128-134 | size-cap eviction keeps the timeline and the bound of 20000 |
| BufferProofs.OfferKeeps | cmd/packet_capture_wire_buffer.go:149-160 | a first attempt either exports the record or lets it wait; the invariant is kept |
| BufferProofs.FlushAllKeeps | cmd/packet_capture_wire_buffer.go:289-301 | the final flush keeps the invariant and all records |
| BufferProofs.StepKeeps | cmd/packet_capture_wire_buffer.go:102-161 | every operation with every clock keeps the invariant, and the records exported or waiting grow by exactly the one handed in |
| RunProofs.RunKeeps | cmd/packet_capture_wire_buffer.go:97-161 | the invariant holds in every reachable state, and exported plus waiting records are exactly those handed in |
| RunProofs.ExpiryTakesAPrefix | cmd/packet_capture_wire_buffer.go:303-315 | with non-decreasing receive times expiry removes exactly a prefix |
| RunProofs.ExpiryIsPunctual | cmd/packet_capture_wire_buffer.go:303-329 | expiry leaves no packet and no record older than the window, and every packet it writes is |
| RunProofs.StepAdvances | cmd/packet_capture_wire_buffer.go:117-161 | no operation reorders, drops or un-annotates a packet; only an accepted packet is added, at the end |
| RunProofs.WirePacketsAreFifo | cmd/packet_capture_wire_buffer.go:117-139 | in every reachable state written packets followed by buffered ones are the accepted packets in order, and at most 20000 are buffered |
| RunProofs.AnnotationsAreFinal | cmd/packet_capture_wire_buffer.go:255-261 | an annotation never changes once set, over any continuation of a run |
| RunProofs.AnnotationBijection | cmd/packet_capture_wire_buffer.go:227-301 | in every reachable state annotated packets and annotated exports correspond one to one, and no record is both exported and waiting |
| RunProofs.CloseCompletesEverything | cmd/packet_capture_wire_buffer.go:97-100 | after Close every packet is written in order, every record exported once, and packet ids on packets are exactly those of annotated exports, one packet each |
| RunProofs.NothingLeaksFromFailedMatching | cmd/packet_capture_wire_buffer.go:265-287 | an export is a function of the original record, and of the one packet that carries it if there is one |
| RunProofs.WaitingRecordsAreHonest | cmd/packet_capture_wire_buffer.go:163-201 | a waiting record is its original plus hints, and a partial one is latched whenever two accepted buffered packets belong to different connections |
| RunProofs.OrientationIsStable | cmd/packet_capture_wire_buffer.go:388-399 | in every run the connection exported for a verified record is its own in network direction, annotated or not |
| RunProofs.AmbiguityIsFinal | cmd/packet_capture_wire_buffer.go:60-63 | a latched record is never exported with a packet, whatever expires or arrives later |
| PassProofs.PassIsGreedy | cmd/packet_capture_wire_buffer.go:227-237 | a pass tries every waiting record, front to back, on the packets as the earlier ones left them: it gets a packet exactly if it is not latched and one stands out, and otherwise goes on waiting |
| PassProofs.FirstPassTries | cmd/packet_capture_wire_buffer.go:289-306 | every operation on a non-empty buffer, and Close on any, tries every waiting record on the buffered packets, on the way from the timeline before to the one after |
| PassProofs.SecondPassTries | cmd/packet_capture_wire_buffer.go:128-138 | an accepted packet is offered to every record that goes on waiting: it is tried on all packets buffered after the operation |
| PassProofs.NewRecordIsTried | cmd/packet_capture_wire_buffer.go:149-160 | a new record is tried at once on all buffered packets, and is the last export with a packet or the last to wait |
| PassProofs.CompleteRecordsGetTheirPacket | cmd/packet_capture_wire_buffer.go:227-253 | a complete waiting record that an operation does not export with a packet had no packet that stood out, neither before nor after a new one came |
| PassProofs.OneRecordOnePacket | cmd/packet_capture_wire_buffer.go:117-161 | one packet, one complete record, in either order, and Close: the record is exported once, with the packet if and only if it is acceptable and the second came before the window of the first was over |
| PassProofs.NothingOverstays | cmd/packet_capture_wire_buffer.go:102-161 | after a tick, a record or an accepted packet nothing in the buffer is as old as the window, and a packet is written before that only to make room in a buffer that stays at 20000 |
| PassProofs.OverdueRecordsLeave | cmd/packet_capture_wire_buffer.go:317-328 | a waiting record whose window is over is exported by the operation |
| PassProofs.UnmatchedOnlyWhenOverdue | cmd/packet_capture_wire_buffer.go:317-328 | before Close a record is exported without a packet only when its window is over |
| PassProofs.RecordsExpireInOrder | cmd/packet_capture_wire_buffer.go:317-328 | with non-decreasing receive times the records that expire are exactly the oldest ones |
| WireBuffer.PendingPlaintext.PrepareForMatch | cmd/packet_capture_wire_buffer.go:220-225 | the record's working copy, updated field by field, is the hint function of its old value |
| WireBuffer.WirePacketBuffer.constructor | cmd/packet_capture_wire_buffer.go:82-95 | an empty buffer; a window of zero or less becomes 30 s |
| WireBuffer.WirePacketBuffer.BestWireMatchWithAmbiguity | cmd/packet_capture_wire_buffer.go:163-201 | the loop over shared packets computes the scan of the specification and updates the latch |
| WireBuffer.WirePacketBuffer.TryAnnotate | cmd/packet_capture_wire_buffer.go:239-263 | the in-place attempt is the attempt of the specification, for the record and for all packets |
| WireBuffer.WirePacketBuffer.FinalizeUnmatched | cmd/packet_capture_wire_buffer.go:271-287 | exports the original without hints |
| WireBuffer.WirePacketBuffer.MatchPendingAgainstWire | cmd/packet_capture_wire_buffer.go:227-237 | the compaction loop is the pass of the specification |
| WireBuffer.WirePacketBuffer.WriteExpiredPackets | cmd/packet_capture_wire_buffer.go:304-315 | writes the expired packets and keeps the others, each in order |
| WireBuffer.WirePacketBuffer.ExportExpiredRecords | cmd/packet_capture_wire_buffer.go:317-328 | exports the expired records and keeps the others, each in order |
| WireBuffer.WirePacketBuffer.FlushExpiredLocked | cmd/packet_capture_wire_buffer.go:303-329 | refines the expiry of the specification |
| WireBuffer.WirePacketBuffer.Tick | cmd/packet_capture_wire_buffer.go:102-115 | refines a tick; afterwards no packet and no waiting record is as old as the window, and nothing already written is taken back |
| WireBuffer.WirePacketBuffer.Enqueue | cmd/packet_capture_wire_buffer.go:117-139 | refines an enqueue; refuses data that does not decode and then changes nothing |
| WireBuffer.WirePacketBuffer.HandlePlaintext | cmd/packet_capture_wire_buffer.go:141-161 | refines the handling of a record |
| WireBuffer.WirePacketBuffer.FlushAllBuffered | cmd/packet_capture_wire_buffer.go:289-301 | refines the final flush; nothing stays buffered or waiting |
| Collector.PacketCollector.HandlePlaintextRecord | cmd/packet_capture.go:181-194 | the next id is given, a verified record goes to the buffer under it, any other becomes a line at once |
| Collector.PacketCollector.HandleWirePacket | cmd/packet_capture.go:196-210 | a record with packet data goes to the buffer, one without does not |
| Collector.PacketCollector.Close | cmd/packet_capture_wire_buffer.go:97-100 | closing is one more operation, after which nothing is buffered |
| Collector.LineOfUnverified | cmd/packet_capture.go:189-193 | the line of an unverified record has its id, is unannotated and shows no endpoint |
| Collector.AdmitKeepsOk | cmd/packet_capture.go:181-210 | for every sequence of events each id went one way, once |
| Collector.ExportComesFromVerified | cmd/packet_capture_plaintext.go:79-83 | only kernel-verified complete records come out of the buffer, under the id they were given |
| Collector.PacketCollector.SendToBuffer | cmd/packet_capture.go:185-188 | a verified record becomes one operation of the buffer under the id just given |
| Collector.PacketCollector.WriteDirect | cmd/packet_capture.go:189-193 | any other record becomes one line at once, cleaned up and unannotated |
| Collector.ReceivedIsAccepted | cmd/packet_capture.go:196-210 | the packets the buffer accepts are the decodable ones received, in order |
| Collector.CaptureIsConsistent | cmd/packet_capture.go:181-210 | for any interleaving ending in Close: the packets written are the decodable ones received in order, there is one line for each record, and the ids on annotated lines are exactly those on annotated packets, one packet each |
| Collector.LineShowsTheConnection | cmd/packet_capture.go:181-194 | from the record as it comes in: the n-th record has the line with id n, which shows its connection, reversed exactly by a read, if the kernel vouches for a complete one, and otherwise no endpoint at all |
| Collector.GateKeepsPartialRecordsOut | cmd/packet_capture.go:181-194 | whatever has come through the gate, no waiting record is partial, latched or changed by hints |
| Collector.EveryRecordBecomesOneLine | cmd/packet_capture.go:87-95 | for any interleaving ending in Close the lines are exactly one for each record received, and unverified ones are unannotated without endpoints |
| Display.SortedUnique | cmd/flow_display.go:551-564 | the order by time and index has one sorted answer, so the unstable library sort is deterministic |
| Display.SortPacketFlows | cmd/flow_display.go:560-564 | any sorted permutation is the sorted sequence |
| Display.IncrementalNewest | cmd/flow_display.go:623-637 | append, sort and truncate is as good as sorting every row ever given and truncating once |
| Display.TimeMsMeaning | cmd/flow_display.go:539-544 | the time of a row from raw fields |
| Display.NewestMeaning | cmd/flow_display.go:551-582 | the rows kept are the right number, in order of time and index, and each is newer than every row left out |
| Display.NewestIsKept | cmd/flow_display.go:623-637 | a row that belongs in the table is still in its buffer unless its kind overflows the table |
| Display.FewerRowsSameNewest | cmd/flow_display.go:571-582 | dropping rows that are not among the newest k does not change the newest k |
| Display.ShownIsNewestIff | cmd/flow_display.go:644-655 | the exact condition under which the table shows the newest rows of everything ever received |
| Display.ShownIsNewest | cmd/flow_display.go:644-655 | up to 200 rows the table is always exact |
| Display.AlwaysExactIff | cmd/flow_display.go:644-655 | the show counts for which the table is exact whatever was received are those up to 200 |
| Display.PacketsAloneAreCutShort | cmd/flow_display.go:644-655 | beyond 200 every history of more than 200 packets alone is cut short |
| Display.AppendToTimeSortedBuffer | cmd/flow_display.go:623-637 | the buffer after an append is the newest rows of all given so far |
| Display.TrimFlowsToShowCount | cmd/flow_display.go:571-582 | nothing for a limit of zero or less, all rows as they are up to the limit, else the newest in time order, for input in any order |
| Display.FlowDisplay.AppendFlow | cmd/flow_display.go:657-698 | while not paused the row gets the next index and joins the buffer of its kind; every buffer holds the newest rows of its kind by time and index |
| Display.FlowDisplay.GetFlows | cmd/flow_display.go:760-807 | the rows shown are the newest by time and index of all packets and plaintext records ever appended, exactly under the stated condition |
| JsonSlice.SliceJSONObject | cmd/plaintext_format.go:172-207 | the loop computes the slice of the byte automaton, for every start including invalid ones |
| JsonSlice.PrintIsNeutral | cmd/plaintext_format.go:172-207 | no printed JSON value of any shape disturbs the scanner inside an object |
| JsonSlice.SliceRoundTrip | cmd/plaintext_format.go:172-207 | for every object printed as in sections 4 to 7 of RFC 8259, and any bytes around it, slicing at its first brace returns exactly the object |
| JsonSlice.SliceIsSelfDelimiting | cmd/plaintext_format.go:172-207 | for arbitrary bytes a slice begins and ends with braces, slices to itself before any continuation, and none of its proper prefixes slices |
| JsonSlice.ExtractEmbeddedExportJSON | cmd/plaintext_format.go:148-170 | ends, and returns the first occurrence, by marker and then by position, whose object unwraps; none if there is none |
| Utf8Display.EllipsizePlaintextDisplay | cmd/plaintext_format.go:608-619 | short text unchanged; otherwise cut at the last character start within the limit, followed by three dots |
| Utf8Display.StartsAreBoundaries | cmd/plaintext_format.go:608-619 | in valid UTF-8 the bytes taken as starts are exactly the character boundaries |
| Utf8Display.TruncationIsOptimal | cmd/plaintext_format.go:608-619 | for valid UTF-8 the kept part is the longest prefix of whole characters that fits |
| Utf8Display.EncodeRoundTrip | cmd/plaintext_format.go:615-617 | the reference encoding of section 3 of RFC 3629 decodes to its character, and the lead byte tells its length |
| Utf8Display.ToValidUTF8 | cmd/plaintext_format.go:624 | the byte loop keeps the characters and replaces each run of stray bytes by one replacement character |
| Utf8Display.RunesOfValid | cmd/plaintext_format.go:624 | valid text keeps all its characters and gains none |
| Utf8Display.RunesOfCharacter | cmd/plaintext_format.go:624 | a character at the front is kept, whatever follows |
| Utf8Display.StrayRunIsReplacedOnce | cmd/plaintext_format.go:624 | a run of bytes at which no character begins becomes one replacement character, however long it is |
| Utf8Display.RepairIsIdentityIffValid | cmd/plaintext_format.go:624 | bytes are taken as they are if and only if they are valid UTF-8 |
| Utf8Display.PlaintextDisplayString | cmd/plaintext_format.go:621-639 | from bytes that need not be UTF-8: repaired, then escaped rune by rune |
| Utf8Display.EscapeRuneMeaning | cmd/plaintext_format.go:628-637 | which characters are shown as they are, and that the two hexadecimal digits of an escape read back as the others |
| Utf8Display.EscapedAt | cmd/plaintext_format.go:627-638 | each character is escaped by itself, in its place |
| Utf8Display.ValidTextIsShownIff | cmd/plaintext_format.go:621-639 | valid text is displayed as it is if and only if it has no control character |
| Utf8Display.ControlBytesMarkGarbage | cmd/plaintext_format.go:480-486 | text is shown unchanged exactly if it has no control character; otherwise, and only then or if it had one before, it holds the escape that marks garbage |
| Keylog.NextKeepsInv | cmd/packet_capture.go:304-352 | every step of the writers keeps the prefix invariant, also between reading the offset and writing the block |
| Keylog.EmbeddedIsAlwaysAPrefix | cmd/packet_capture.go:304-352 | in every interleaving the embedded blocks, joined, are the first `keylogOffset` bytes of the log |
| Keylog.EmbeddedOnlyGrows | cmd/packet_capture.go:321-352 | what is embedded stays embedded, once and in order |
| Keylog.QuietTickCatchesUp | cmd/packet_capture.go:328-350 | a tick that reads to the end and writes its block leaves nothing behind |
| Keylog.KeylogWriter.EmbedTLSKeylog | cmd/packet_capture.go:304-319 | embeds the whole content or nothing, and is the step of the state machine |
| Keylog.KeylogWriter.AppendBlock | cmd/packet_capture.go:339-350 | a failed write leaves the offset, a written block extends the prefix, and either is the step of the state machine |
| StopProtocol.CollectorKeepsInv | cmd/packet_capture.go:59-179 | each step of the collector, with or without errors, keeps the invariant that ties defers, registration and done channel together |
| StopProtocol.StopperKeepsInv | cmd/packet_capture.go:274-284 | each step of any of the stoppers keeps it |
| StopProtocol.StopCancels | cmd/packet_capture.go:110-112 | a call that waits, or has waited, has cancelled the collector's context |
| StopProtocol.LoopHoldsEverything | cmd/packet_capture.go:87-146 | in the event loop the writer and the stop function are registered and the whole clean-up is deferred in its order |
| StopProtocol.OpenedFileIsClosed | cmd/packet_capture.go:87-97 | a plaintext file that was opened is among those to be closed, from then on |
| StopProtocol.RegisteredIsThePromisedOrder | cmd/packet_capture.go:59-124 | the defers of a registered capture, unwound, are the promised order of clean-up |
| StopProtocol.StopWaitsForCleanup | cmd/packet_capture.go:274-284 | in every interleaving, if stop returned true, the buffer was closed, the stop function cleared, the writer flushed and both files closed, in that order, before the done channel |
| StopProtocol.EmergencyFlushSeesAnOpenFile | cmd/packet_capture.go:286-302 | while the signal handler can see the writer, the final flush and the closing of the file have not begun |
| StopProtocol.StopWaitsExactlyWhileRegistered | cmd/packet_capture.go:274-284 | a call waits if and only if it is made between the setting of the stop function and its clearing |
| StopProtocol.FalseWhileFlushIsPending | cmd/packet_capture.go:274-284 | the exact condition under which a call returns false although the writer is still to be flushed |
| StopProtocol.FalseMayComeBeforeRegistration | cmd/packet_capture.go:104-112 | a reachable state in which stop returned false after the writer was set and before the stop function was |
| StopProtocol.FalseMayComeBeforeTheFlush | cmd/packet_capture.go:104-113 | a reachable state in which stop returned false after the buffer was closed but before the writer was flushed |
| SignalExit.PhaseAdvances | cmd/packet_capture.go:99-113 | each step of the collector moves the writer forward through its phases, and only creation and final flush change whether a flush is pending |
| SignalExit.WritesAreVisible | cmd/packet_capture.go:109-131 | packets are written only while the handler can see the writer and stop would wait; the key-log goroutine is not bound by this |
| SignalExit.AfterKeepsInv | cmd/root.go:77-93 | every step of collector, stoppers, correlation buffer, key-log goroutine and handler keeps the account of unwritten bytes and held packets |
| SignalExit.ExitLosesExactly | cmd/root.go:85-91 | in every interleaving: after a true result bytes are lost exactly if a key-log block came after the final flush, and no packet is left in the buffer; after a false one exactly if that happened, or the writer exists without its final flush and the emergency flush did not see it or was followed by a write; packets are left in the buffer only if the call came early |
| SignalExit.UninterruptedExitLosesExactly | cmd/root.go:85-91 | with nothing in between, a false result leaves no packet in the buffer and loses bytes exactly between creation and registration of the writer, between its clearing and its final flush, or if a key-log block has already come too late |
| SignalExit.LateBlockPossibleIff | cmd/packet_capture.go:321-352 | while the handler waits and no block is late yet, some continuation ends with a true result and lost bytes if and only if a tick of the key-log goroutine is under way |
| SignalExit.HeldPossibleIff | cmd/root.go:85-91 | after a false result some continuation exits with packets in the correlation buffer if and only if there is one and it holds some already or the clean-up has not begun |
| SignalExit.SignalMayLosePackets | cmd/root.go:85-91 | a reachable exit after the buffer was closed and before the final flush, with bytes unwritten |
| SignalExit.SignalMayLoseKeys | cmd/packet_capture.go:324-349 | a reachable exit after a true result with a key-log block unwritten |
| SignalExit.SignalMayLoseHeldPackets | cmd/root.go:85-91 | a reachable exit after a false result with packets in the correlation buffer |

## Left out

- Address, CIDR and base64 parsing, TCP frame parsing, payload unwrapping, preview and comment text, lower-casing: functions of `Env`, `CaptureFilters` or, for the unwrapping of an embedded object, a parameter.
- Input and output: pcapng encoding, JSON marshalling, write errors (the source logs and drops), a nil writer or a nil plaintext log. Writing is appending to `written`, `exported` or `direct`.
- A capture without plaintext capture: there is then no buffer, packets are written directly and every record takes the unverified path.
- Numbers: record values of Go type float64 are reals, so NaN, infinities and int64 overflow on conversion are not modelled; durations do not saturate; packet ids do not wrap at 64 bits.
- Go maps are values here, so the aliasing that the `Copy` calls guard against is not modelled; packets, waiting records and the buffer are objects. A compaction builds a new sequence where the source reuses the backing array.
- WirePacketsAreFifo: assumes that receive times do not decrease, which holds in the source because a single goroutine enqueues with a monotonic clock; so do the lemmas that say `InOrder`.
- Partial records: the single greedy pass is not a fixpoint and the code does not promise that every inferable partial record is matched; no completeness is stated for them.
- Panics on unexpected dynamic types (a `Data` field that is not a string, a time that is not a number in the display code) are excluded or read as zero.
- SortPacketFlows: the library sort is any sorted permutation of its input.
- The Flow and Metric capture modes, regular-expression filters, the table widgets and parsing of capture options.
- FlowDisplay.GetFlows: states the packet path with plaintext capture on; without it the single buffer `lastFlows` is shown, whose content `AppendFlow` states.
- The other garbage heuristics, HTTP and noise detection.
- SignalExit.ExitLosesExactly: bytes count as lost if no flush follows them; that the writer's own buffer may spill part of them to the file before that is not modelled, and a new writer is taken to hold its header until the first flush.
- The other exit, on which the interactive display returns and the main function ends, calls stop without an emergency flush; `FalseWhileFlushIsPending` says what a false result means for it.
- ParseKeylogLines and key logs that shrink or are rewritten: the log is append-only.
- Several captures in one process, whether goroutines are ever scheduled, and the exit of the ticker goroutines.
- TLS, gRPC, Kubernetes, Prometheus and SQLite plumbing: foreign libraries.

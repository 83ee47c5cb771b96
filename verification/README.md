# Verified models of the Mosaico cores

A Dafny 4.11 project that models the parts of the repository where a mistake is hard to see from one function, and
proves what they promise over all inputs, runs and interleavings. `dafny verify dfyconfig.toml` checks everything.

Code that changes objects or buffers in place is modelled as classes and methods over arrays and fields, each proved
against a specification function; the theorems are lemmas about those functions and about whole runs.

- **Discharge trace.** The 64-row ring (`TraceModel`, what it evicts in `TraceWeights`, retention over unbounded runs
  in `TraceRetention`, its marks in `TraceStatus`), its 3108-byte blob (`TraceBlob`, loops in `TraceBlobCode`), the
  packed form (`TracePack`, `TracePackCode`), where every field stands (`TraceLayout`), the recorder with its commands,
  storage failures and reboots (`TraceService`, `TraceRuns`, `TraceRecorder`), what each command, sample and load does
  in any reached state (`TraceCommands`), and the gap in its guards (`TraceStop`). `Crc32` treats the CRC (section 8 of
  RFC 1952) as a linear bijection on bit vectors, `CrcValues` ties it to the standard's; `Bytes` holds the byte order.
- **Header filter.** A classic BPF machine (`Bpf`), the two-pass assembler (`Assembler`), the filter it builds
  (`HeaderFilter`), what that program decides (`FilterMeaning`), the independent parser and their equality on every
  packet (`HeaderParser`), the values it returns for frames laid out from field values (`Frames`, `HeaderFields`), and
  the one-instruction narrowing and record batches (`PacketCapture`, `CaptureRecords`). The frames are
  802.1Q tags, the IPv4 header of section 3.1 of RFC 791 and the TCP header of section 3.1 of RFC 9293.
- **Output control.** The two-thread request and reply protocol as interleaved steps (`OutputProtocol`), which reply
  answers (`OutputReplies`), the object that performs the steps (`OutputController`), and one whole transaction with a
  failure possible at every call (`OutputRun`).
- **Display settings.** Values, blob, leases and revisions (`DisplaySettings`, edit by edit in `DisplayEdits`), and the
  writer outside the lock, its hand-over between tasks and reboots (`DisplayService`, section by section in
  `DisplaySections`, when it writes in `DisplayWrites`, in place in `DisplayTasks`).
- **Migration.** Boot selectors and flash intervals (`OtaMigrate`, refusals in `OtaEntries`), reading regions back by
  digest (`OtaBackup`, when that is enough in `OtaChecks`), and the writes, their backups and the recovery on the flash
  itself (`OtaWrites`).
- **Usage.** Hourly accounting (`UsageHours`, figure by figure in `UsageSums`), quota trend (`QuotaTrend`), incremental
  log reading with outbox and collector (`LocalUsage`, line by line in `LogLines`, move by move in `LogMoves`).
- **Receive diagnostics.** Parse and ring (`RxIngress`, classes and fields in `RxFields`), the generation lease under
  every interleaving (`RxLease`, section by section in `RxSections`), the globals behind it (`RxFilter`).
- **NAND policy.** Format, save and activation across power losses (`NandPolicy`, each outcome in `NandMoves`): a move
  interrupted between its mark and its activation is final, as `main/host/gauge_trace_nand_backend.h:6-7` promises.

## Where the code does not do what is promised

- **A stale reply can be accepted.** `docs/iotpower-output-control.md:64-66` asks for a read-return tick above the
  tick of the send; the code compares a tick taken after the return. A reader preempted between the two
  (`tools/iotpower_output_control.py:100-101`) holds a reply of the present epoch; if the request is sent meanwhile,
  the late tick is above that of the send and a reply that had returned before it answers the new request. What the
  document says further, that waiting for the publication lock alone cannot make a reply fresh (lines 68-69), is kept.
  `OutputProtocol.StaleExactly` gives the condition in both directions for the two kinds of request the code makes,
  and `OutputProtocol.StaleHappens` a run of the code that reaches it. Everything else holds: entry after the opening,
  epoch, sequence number, no double use, also after a recovery's barrier timeout.
- **Stop can break a trace of the last boot number.** A trace loaded with boot 0xffffffff is marked corrupt, which
  blocks sampling and every command but Clear; Stop alone lacks the check, clears the mark by a successful save, and
  Resume then records under the same boot number with a restarted clock. `TraceStop.StopBreaksExactly` says exactly
  which accepted Stops can end in a trace that cannot be stored, `TraceStop.LastBootBreaks` that every armed trace with
  such a last row comes to it, and `TraceRuns.EveryRunStorable` that every run without such a Stop is safe.
- `docs/iotpower-output-control.md:79-80` gives 600 seconds as the longest OFF interval; the code accepts 1200, and
  `OutputRun.Transaction.Run` is refused exactly outside that.

## Model

| member | source | states |
|---|---|---|
| TraceModel.Ring.Append | main/host/gauge_discharge_trace_model.h:82-93 | the 64-slot ring, changed in place, does to the rows and flags what the trace specification says of one append |
| TraceModel.Ring.CompactOldest | main/host/gauge_discharge_trace_model.h:35-81 | a full ring loses exactly the row the eviction rule names; all others keep their order |
| TraceModel.Ring.Prioritise | main/host/gauge_discharge_trace_model.h:36-59 | the one-pass ranking with running marks gives every row its declarative priority |
| TraceModel.Ring.SelectVictim | main/host/gauge_discharge_trace_model.h:69-77 | the scan over rows 1 to 32 finds the specified victim |
| TraceModel.Ring.Remove | main/host/gauge_discharge_trace_model.h:78-80 | sliding the newer rows down over the victim removes just that row |
| TraceModel.Ring.Observe | main/host/gauge_discharge_trace_model.h:85-92 | low-charge, recharge and sampling marks after a row |
| TraceModel.Ring.Due | main/host/gauge_discharge_trace_model.h:29-31 | whether a sample is due |
| TraceStatus.StatusExactly | main/host/gauge_discharge_trace_model.h:85-91 | over any history: low was seen if and only if some valid sample discharged a nearly empty battery, and recording ends, once and for all, if and only if two samples in a row charged after one |
| TraceStatus.MarksExactly | main/host/gauge_discharge_trace_model.h:92 | over any history: the last sample's clock, and whether the last valid sample was low, are what the next sample's due time goes by |
| TraceRetention.RunIsKept | main/host/gauge_discharge_trace_model.h:82-84 | after any number of appends the rows are exactly the history at the kept positions |
| TraceRetention.Shape | main/host/gauge_discharge_trace_model.h:32-84 | kept positions increase; everything up to 64 rows and exactly 64 after; the newest 32 rows are the newest 32 of the history |
| TraceRetention.VictimIsLeast | main/host/gauge_discharge_trace_model.h:67-77 | a row is evicted if and only if it is the least of rows 1 to 32 by priority, then neighbour span, ties going to the newer row |
| TraceWeights.PriorityIsWeight | main/host/gauge_discharge_trace_model.h:60-64 | a candidate row weighs, by the bits of its own and earlier rows, 240, 230, 220, 211 or 210 as the first of its kind, 180 beside a change of boot, 140 before such a first row, and else nothing |
| TraceWeights.VictimExactly | main/host/gauge_discharge_trace_model.h:60-77 | row v of 1 to 32 is given up if and only if it weighs less, then spans less time of one boot, then is newer, than each of the others |
| TraceRetention.SomeOrdinaryRow | main/host/gauge_discharge_trace_model.h:60-66 | among the 32 candidates at least one has no anchor rank: five anchors cannot fill them |
| TraceRetention.VictimIsNoAnchor | main/host/gauge_discharge_trace_model.h:60-66 | an anchor is never evicted |
| TraceRetention.FirstRowKept | main/host/gauge_discharge_trace_model.h:37 | the very first row of any history stays |
| TraceRetention.AnchorKept | main/host/gauge_discharge_trace_model.h:44-49 | over any run of appends the first valid row with EDV2 set, with SOC 0, with VDQ clear and with SOC 96 stay |
| TraceRetention.DepartureKept | main/host/gauge_discharge_trace_model.h:48-49 | the first valid row that leaves SOC 96 after the first valid row at 96 stays |
| TraceBlob.EncodeThenDecode | main/host/gauge_discharge_trace_model.h:106-140 | an encoded trace is accepted if and only if it is storable, and then decodes to itself with the raw coulomb count zeroed where its flag is clear |
| TraceBlob.DecodeThenEncode | main/host/gauge_discharge_trace_model.h:106-140 | an accepted blob re-encodes byte for byte if and only if its schema number is the one its rows call for |
| TraceBlob.DecodedIsNormal | main/host/gauge_discharge_trace_model.h:120-140 | what decodes is storable and already normalised |
| TraceBlob.CorruptionRejected | main/host/gauge_discharge_trace_model.h:101-121 | any change confined to four consecutive bytes under the CRC, or to the CRC field, makes an accepted blob unreadable |
| TraceLayout.RowsStand | main/host/gauge_discharge_trace_model.h:111-116 | row i of an encoded trace stands at byte 32 + 48 i, each of its 17 fields at its own offset, signed ones in two's complement, the last only if its flag says so |
| TraceLayout.RestStands | main/host/gauge_discharge_trace_model.h:106-117 | the rest of an encoded trace: magic, schema, sizes, flags and boot at their offsets, zeros in the padding and behind the rows, the CRC at the end |
| TraceLayout.ReadableExactly | main/host/gauge_discharge_trace_model.h:120-140 | an encoded trace reads back if and only if its boot is not 0, its rows have permitted flags and boots up to its own and are in order of boot and clock, and a finished one saw low and is not recording |
| TraceLayout.FirstSchemaExactly | main/host/gauge_discharge_trace_model.h:121-137 | an accepted blob of schema 1 has no raw coulomb count and is the encoding of what it holds |
| TraceLayout.SecondSchemaTakesAll | main/host/gauge_discharge_trace_model.h:121-137 | relabelled to schema 2 and sealed, every storable trace reads back the same |
| Crc32.WordStep | main/host/gauge_discharge_trace_model.h:101-105 | up to four byte steps of the CRC equal one step of the whole word (section 8 of RFC 1952) |
| Crc32.BurstDetected | main/host/gauge_discharge_trace_model.h:101-105 | every change inside a window of four bytes changes the CRC |
| Crc32.FoldInjective | main/host/gauge_discharge_trace_model.h:101-105 | equal input never merges two different registers |
| CrcValues.PolyIsStandard | main/host/gauge_discharge_trace_model.h:103 | the polynomial has exactly the terms that section 8 of RFC 1952 gives |
| CrcValues.KnownValues | main/host/gauge_discharge_trace_model.h:101-105 | the CRC of nothing is 0 and that of four bytes 0xff is 0xffffffff |
| TraceBlobCode.Put | main/host/gauge_discharge_trace_model.h:99 | the byte loop writes the little-endian field and touches nothing else |
| TraceBlobCode.Field | main/host/gauge_discharge_trace_model.h:100 | the byte loop reads the little-endian field |
| TraceBlobCode.CrcOf | main/host/gauge_discharge_trace_model.h:101-105 | the bit loop computes the CRC |
| TraceBlobCode.EncodeInto | main/host/gauge_discharge_trace_model.h:106-118 | the buffer ends up holding exactly the encoding of the trace |
| TraceBlobCode.DecodeBlob | main/host/gauge_discharge_trace_model.h:120-140 | a fresh trace equal to what the blob decodes to, or none exactly when it is refused |
| TracePack.PackThenUnpack | main/host/gauge_trace_storage_codec.h:22-72 | exactly which blobs come back from packing, on the run-length path and on the raw path: those with a correct CRC, and with the trace magic if stored raw |
| TracePack.SaveThenLoad | main/host/gauge_discharge_trace.cpp:83-89 | a storable trace survives encoding, packing, unpacking and decoding |
| TracePack.PackInjective | main/host/gauge_trace_storage_codec.h:22-41 | two different sealed traces never pack to the same bytes |
| TracePack.ExpandOfSqueeze | main/host/gauge_trace_storage_codec.h:26-35 | expanding the zero and literal runs gives back the differences |
| TraceLayout.SqueezeFormat | main/host/gauge_trace_storage_codec.h:26-35 | runs are the longest possible up to 128; n zeros become the byte 127 + n, n other bytes the byte n - 1 and themselves |
| TraceLayout.DifferenceBits | main/host/gauge_trace_storage_codec.h:19-21 | a row's bit is stored as set exactly where it disagrees with the bit of the row before |
| TraceLayout.PackedForm | main/host/gauge_trace_storage_codec.h:22-41 | a packed trace is the 16-byte frame with every field at its offset and the runs behind it if that is shorter than 3108 bytes, and else the trace itself |
| TracePackCode.PackInto | main/host/gauge_trace_storage_codec.h:22-41 | the cursor loops produce exactly the packed form, inside the buffer |
| TracePackCode.UnpackInto | main/host/gauge_trace_storage_codec.h:42-72 | on any input it ends inside both buffers; it succeeds with exactly the unpacked blob or reports the specified error |
| TracePackCode.FrameCrcOf | main/host/gauge_trace_storage_codec.h:11-18 | the frame CRC, skipping its own field |
| TracePackCode.ExpandInto | main/host/gauge_trace_storage_codec.h:52-66 | the token loop expands the runs or stops with the specified error |
| TracePackCode.RestoreInPlace | main/host/gauge_trace_storage_codec.h:68 | undoing the differences front to back in one buffer restores the rows |
| TraceRuns.EveryRunStorable | main/host/gauge_discharge_trace.cpp:145-236 | through any run of requests, service calls with any storage outcome, and reboots, with the clock nondecreasing per boot, unless Stop is accepted on a corrupt record whose last row of the present boot lies more than 60000 ms ahead: the trace encodes to a blob that decodes and unpacks to the same rows, flags and boot, and its rows are what appending the surviving history leaves |
| TraceStop.StopBreaksExactly | main/host/gauge_discharge_trace.cpp:145-157 | for every corrupt state of a run that accepts Stop: some continuation of that Stop without a reboot holds a trace that cannot be stored if and only if the last row is of the present boot and later than the clock plus 60000 ms |
| TraceStop.LastBootBreaks | main/host/gauge_discharge_trace.cpp:83-95 | such a state is reached from every armed stored trace of the last boot number whose last row is later than 60000 ms: one load leads to it |
| TraceRuns.ClaimMeansStored | main/host/gauge_discharge_trace.cpp:114-133 | a save is reported done only if the stored record loads as the saved trace |
| TraceRuns.RunNormal | main/host/gauge_discharge_trace_model.h:35-93 | storing and reloading does not change what is evicted later |
| TraceRuns.RunInv | main/host/gauge_discharge_trace.cpp:192-236 | the invariant of a whole run without such a Stop |
| TraceRecorder.Recorder.Request | main/host/gauge_discharge_trace.cpp:145-157 | a request is taken exactly under the specified guards |
| TraceRecorder.Recorder.Load | main/host/gauge_discharge_trace.cpp:72-95 | reading the record at start: corrupt, missing or decoded, and the next boot number |
| TraceRecorder.Recorder.Save | main/host/gauge_discharge_trace.cpp:105-134 | one write with read-back and comparison |
| TraceRecorder.Recorder.RunPending | main/host/gauge_discharge_trace.cpp:223-231 | a command works on a staged copy that replaces the trace only after a verified save; what it leaves then is said by the next rows |
| TraceCommands.CommandDone | main/host/gauge_discharge_trace.cpp:211-231 | in every reached state: a pending command is finished only if a writable sample, no block, a minute since the last attempt and a save reported as done come together, and always if they do and the save works; what is stored then loads as the trace; otherwise only a due sample is new |
| TraceCommands.CommandedExactly | main/host/gauge_discharge_trace.cpp:224-228 | what a command makes of the staged copy: Arm and Resume record, Stop does not, and only Clear touches anything else |
| TraceCommands.ArmDone | main/host/gauge_discharge_trace.cpp:225-229 | a finished Arm leaves an armed, empty trace of the same boot |
| TraceCommands.ArmThenSample | main/host/gauge_discharge_trace.cpp:221-229 | the first call with a sample after a finished Arm makes exactly that sample, stamped with clock and boot, the first row |
| TraceCommands.ClearDone | main/host/gauge_discharge_trace.cpp:227-229 | a finished Clear leaves a disarmed, empty trace of the same boot with no mark set |
| TraceCommands.StopDone | main/host/gauge_discharge_trace.cpp:226-229 | a finished Stop leaves a disarmed trace with its rows, and the sample of the same call if one was due |
| TraceCommands.ResumeDone | main/host/gauge_discharge_trace.cpp:225-229 | a finished Resume leaves an armed trace with its rows and marks |
| TraceCommands.CheckpointDone | main/host/gauge_discharge_trace.cpp:224-229 | a finished Checkpoint leaves rows and flags alone |
| TraceCommands.SampleExactly | main/host/gauge_discharge_trace.cpp:209-221 | in every reached loaded state: a call adds exactly the sample that is due, stamped, and otherwise none |
| TraceCommands.CheckpointExactly | main/host/gauge_discharge_trace.cpp:232-235 | without a command a call writes if and only if it may and what is unsaved is due; if the storage works, what it holds then loads as the trace, which is no longer unsaved |
| TraceCommands.RequestExactly | main/host/gauge_discharge_trace.cpp:145-157 | which requests are accepted; an accepted one only waits, any other changes nothing |
| TraceCommands.LoadExactly | main/host/gauge_discharge_trace.cpp:72-95 | the first admitted call of a boot takes the stored trace with the next boot number, or an empty one of boot 2; exactly a failed read, an unreadable record and the last boot number leave the recorder corrupt |
| TraceCommands.BootExactly | main/host/gauge_discharge_trace.cpp:59-95 | a boot forgets everything but the stored record, and its first write need not wait |
| TraceRecorder.Recorder.Service | main/host/gauge_discharge_trace.cpp:192-236 | one service call does exactly the specified step |
| Assembler.Assembler.Label | tools/mosaico_lan_tcp_headers.py:82-85 | a label is placed once; a second placement is refused |
| Assembler.Assembler.Finish | tools/mosaico_lan_tcp_headers.py:90-106 | the loop returns the resolved program or the first error |
| Assembler.ResolveExactly | tools/mosaico_lan_tcp_headers.py:90-106 | an instruction is accepted if and only if each label it names is known and lies ahead, for a conditional jump with at most 255 instructions between; its offsets count those, and its other operands are kept |
| Assembler.FinishPreserves | tools/mosaico_lan_tcp_headers.py:90-106 | an accepted program means what its labelled rows mean, for every packet and machine state, and ends within its length |
| HeaderFilter.BuildFilter | tools/mosaico_lan_tcp_headers.py:109-164 | assembling the filter never fails and yields one fixed program for every address pair and port |
| HeaderFilter.ProgramMeansListing | tools/mosaico_lan_tcp_headers.py:109-164 | that program runs as the labelled listing does and ends within its own length |
| HeaderFilter.AllForward | tools/mosaico_lan_tcp_headers.py:93-103 | every jump of the listing is forward and in range |
| FilterMeaning.FilterDecides | tools/mosaico_lan_tcp_headers.py:109-164 | for every packet the machine returns the specified decision and loads nothing at or past the bytes it keeps |
| FilterMeaning.ProgramIsFilter | tools/mosaico_lan_tcp_headers.py:109-164 | the same for the assembled program |
| HeaderParser.ParseHeader | tools/mosaico_lan_tcp_headers.py:171-222 | the parser with its tag loop computes the parser specification, whose values are those of HeaderFields.FieldsReturned |
| HeaderFields.FieldsReturned | tools/mosaico_lan_tcp_headers.py:171-222 | for every frame laid out byte by byte from field values, with up to two tags, any IPv4 options and any TCP data offset: the parser accepts it if and only if it is one to be kept, and then returns exactly those values: addresses, ports, sequence and acknowledgement numbers, nine flag bits, window, lengths, direction and the unknown-length mark |
| HeaderFields.HeadersKept | tools/mosaico_lan_tcp_headers.py:109-222 | for every such frame the filter program keeps the headers exactly up to the end of the fixed TCP header if and only if the frame without its rest is one to be kept |
| HeaderParser.FilterIsParser | tools/mosaico_lan_tcp_headers.py:109-222 | for every packet and every n > 0: the filter keeps n bytes if and only if the parser accepts the first n bytes with that wire length |
| HeaderParser.ProgramIsParser | tools/mosaico_lan_tcp_headers.py:109-222 | the same for what the machine returns when it runs the program |
| HeaderParser.ParsePlainHeader | tools/mosaico_lan_packet_headers.py:66-78 | the narrowed parser, its own tag loop included, whose values are those of HeaderFields.PlainFieldsReturned |
| HeaderFields.PlainFieldsReturned | tools/mosaico_lan_packet_headers.py:66-78 | the same for the narrowed parser, which also refuses every frame with IPv4 options |
| HeaderParser.NarrowDecision | tools/mosaico_lan_packet_headers.py:46-63 | the narrowed decision keeps exactly the kept packets with a 20-byte IPv4 header, at most 62 bytes |
| HeaderParser.NarrowFilterIsParser | tools/mosaico_lan_packet_headers.py:46-78 | the narrowed filter keeps n bytes if and only if the narrowed parser accepts them |
| PacketCapture.PatchPlace | tools/mosaico_lan_packet_headers.py:53-59 | the instruction to patch exists exactly once for every address pair and port |
| PacketCapture.PatchHeaderLength | tools/mosaico_lan_packet_headers.py:52-63 | the search and the single replacement, or a refusal |
| PacketCapture.BuildNarrowFilter | tools/mosaico_lan_packet_headers.py:46-63 | building the narrowed program never fails and yields the patched program |
| PacketCapture.NarrowProgramMeaning | tools/mosaico_lan_packet_headers.py:46-63 | the patched program keeps what the original keeps of packets with a 20-byte IPv4 header and nothing else, never more than 62 bytes, and loads nothing past that |
| PacketCapture.NarrowProgramIsParser | tools/mosaico_lan_packet_headers.py:46-78 | patched program and narrowed parser accept the same packets |
| PacketCapture.ParseBatch | tools/mosaico_lan_packet_headers.py:135-195 | a session that is not permitted and a length out of bounds are refused with their own errors; otherwise the offset loop returns all records or nothing, with the values of PacketCapture.BatchRoundTrip |
| CaptureRecords.PrivateExactly | tools/mosaico_lan_tcp_headers.py:225-232 | which addresses count as private and unicast, octet by octet |
| CaptureRecords.PermittedExactly | tools/mosaico_lan_packet_headers.py:135-143 | which sessions are permitted |
| CaptureRecords.RecordExactly | tools/mosaico_lan_packet_headers.py:178-194 | a record is read if and only if its header, frame and padding lie inside, its microseconds and lengths are in bounds and the parser accepts its frame; then with its own times, signed seconds included, and its length rounded up to four |
| CaptureRecords.BatchExactly | tools/mosaico_lan_packet_headers.py:167-195 | a batch is read if and only if it is safe records one behind the other |
| PacketCapture.BatchRoundTrip | tools/mosaico_lan_packet_headers.py:177-195 | records of frames laid out from field values, one behind the other, come back one by one and in order with exactly those values |
| PacketCapture.BatchAtomic | tools/mosaico_lan_packet_headers.py:167-195 | one refused record makes the whole batch worthless, wherever it stands |
| OutputProtocol.AnswersAreFresh | tools/iotpower_output_control.py:93-211 | under every interleaving each answer was read in its request's epoch after the request opened, is numbered above its marker and timed after its send; numbers and sends increase, so no reply answers twice and no request is answered twice |
| OutputProtocol.QueueIsFresh | tools/iotpower_output_control.py:143-189 | from a send until the next opening every queued reply is above the marker and of the request's epoch |
| OutputProtocol.BarrierHolds | tools/iotpower_output_control.py:160-174 | without a recovery, whatever the reader is doing at a send it began in the request's epoch after the opening |
| OutputProtocol.StaleExactly | tools/iotpower_output_control.py:100-102 | for a query, which waits for 04, and a setter, which waits for 04 or 06: the request can still be answered by a reply whose native read returned before its send if and only if, at the send, the reader holds a reply of the request's epoch and of an awaited kind without having taken its receive time |
| OutputProtocol.StaleHappens | tools/iotpower_output_control.py:213-215 | a run of the code that comes to it: an answered bootstrap, the next query opened, a read returning 04, the send, and that 04 as its answer |
| OutputReplies.PublishedExactly | tools/iotpower_output_control.py:105-118 | exactly which replies enter the queue, which are dropped and counted, and which end the reader |
| OutputReplies.FirstAwaitedAnswers | tools/iotpower_output_control.py:191-211 | in every run: of the replies queued after a send, polling looks at one after the other and the first that is timed after the send and of an awaited kind is the answer; without such a one there is none |
| OutputReplies.CanBeAnswered | tools/iotpower_output_control.py:143-215 | wherever the controller is free and the reader alive and between replies, a query or setter can be opened, sent and answered, with any payload and each awaited kind, by a reply read after its send |
| OutputReplies.OpenExactly | tools/iotpower_output_control.py:143-169 | opening always begins a new epoch; the request goes on if and only if this is the recovery, or every drained reply could be logged and the reader is alive |
| OutputReplies.SendExactly | tools/iotpower_output_control.py:160-185 | what a send waits for: outside the recovery the reader's entry into the new epoch |
| OutputReplies.AwaitingMoves | tools/iotpower_output_control.py:191-200 | when an awaited reply may time out, be polled for in vain or be taken; the first two touch neither queue nor answers |
| OutputReplies.StopStays | tools/iotpower_output_control.py:93-95 | a stop is never taken back and ends the reader when it next looks |
| OutputProtocol.StepInv | tools/iotpower_output_control.py:93-211 | every atomic section of either thread keeps the invariant |
| OutputController.Controller.Capture | tools/iotpower_output_control.py:96-99 | the reader's section before a read |
| OutputController.Controller.Publish | tools/iotpower_output_control.py:103-118 | the reader's section after a read, including the full queue and the invalid snapshot |
| OutputController.Controller.Drain | tools/iotpower_output_control.py:150-157 | the drain loop, ended early by a failing log write outside the recovery |
| OutputController.Controller.Open | tools/iotpower_output_control.py:146-159 | the new epoch, the first drain and the reader error |
| OutputController.Controller.Send | tools/iotpower_output_control.py:175-185 | the second drain, the marker and the send time |
| OutputController.Controller.Bootstrap | tools/iotpower_output_control.py:127-141 | the request sent before the reader runs |
| OutputController.Controller.Receive | tools/iotpower_output_control.py:201-211 | a reply is taken off the queue and returned only if it passes all four checks |
| OutputRun.Transaction.Log | tools/iotpower_output_control.py:296-305 | a failing log write is remembered for good and raises except while recovering |
| OutputRun.Transaction.Receive | tools/iotpower_output_control.py:191-211 | every reply taken off the queue is logged, those passed over included; only a setter takes an acknowledgement for its reply |
| OutputRun.Transaction.Begin | tools/iotpower_output_control.py:143-189 | in a recovery nothing stops a request before its native call |
| OutputRun.Transaction.Toggle | tools/iotpower_output_control.py:217-241 | the outcomes asked for are the planned ones in order: two drains with the barrier between, the setter, its answer, and the same for the one query; success means all of them were good, that is, 04 only with the wanted settings, 06 or no reply for the setter, and 04 with the wanted settings for the query, with every log line due written |
| OutputRun.Transaction.Start | tools/iotpower_output_control.py:312-323 | a transaction starts if and only if every outcome was good: the open, the bootstrap's reply and a second one equal to it |
| OutputRun.Transaction.SwitchOff | tools/iotpower_output_control.py:324-333 | OFF is decided on if and only if the output is ON and the stop check passes; then it succeeds if and only if every outcome of the toggle and the hold was good, all of them having been asked for in order |
| OutputRun.Transaction.Run | tools/iotpower_output_control.py:270-367 | refused, with nothing done, if and only if the interval is not 0 and not a confirmed 1 to 1200 seconds; otherwise complete if and only if every outcome consumed was good and an output to be switched OFF was ON; a complete run asked for exactly the planned outcomes in order, wrote every log line due, read its snapshot twice and confirmed OFF and ON; in every run the acts form a sound story |
| OutputRun.OffIsFollowedByOn | tools/iotpower_output_control.py:324-345 | at most one OFF and one ON with the original limits; a decided OFF is followed by its ON before the close |
| OutputRun.LockIsKept | tools/iotpower_output_control.py:288-367 | the port's lock is removed if and only if no open was attempted or the close succeeded, and last |
| DisplaySettings.SanitizeExactly | main/host/mosaico_display_settings_model.h:21-32 | sanitizing keeps exactly the permitted field values and always ends in a permitted configuration |
| DisplayEdits.DefaultsAre | main/host/mosaico_display_settings_model.h:6-12 | the defaults, which are permitted |
| DisplaySettings.PatchExactly | main/host/mosaico_display_settings_model.h:39-54 | a patch succeeds exactly for a known field and a permitted value, sets that field and no other |
| DisplayEdits.TimeoutPatches | main/host/mosaico_display_settings_model.h:39-54 | what a patch by name does to the two timeouts, for every value |
| DisplayEdits.BrightnessPatches | main/host/mosaico_display_settings_model.h:39-54 | the same for the three brightnesses |
| DisplayEdits.FlagPatches | main/host/mosaico_display_settings_model.h:39-54 | the same for the two flags |
| DisplayEdits.LockPatches | main/host/mosaico_display_settings_model.h:39-54 | the same for the two lock intervals |
| DisplayEdits.OtherPatches | main/host/mosaico_display_settings_model.h:39-54 | no other name and no value outside 0 to 600 is accepted |
| DisplaySettings.EncodeThenDecode | main/host/mosaico_display_settings_model.h:79-91 | a stored configuration reads back if and only if it is permitted |
| DisplaySettings.DecodeThenEncode | main/host/mosaico_display_settings_model.h:79-91 | a version 3 blob is the encoding of what it decodes to; older versions decode with the defaults of the missing fields |
| DisplayEdits.FieldsStand | main/host/mosaico_display_settings_model.h:79-83 | every field of a stored configuration stands at its byte |
| DisplayEdits.ReadExactly | main/host/mosaico_display_settings_model.h:84-91 | a blob is read as a configuration if and only if it shows its fields in the form of version 3, 2 or 1, older ones with the defaults of what they lack, and all values are permitted |
| DisplaySettings.CorruptionRejected | main/host/mosaico_display_settings_model.h:74-85 | any change confined to four consecutive bytes under the CRC is refused |
| DisplaySettings.LeaseIsUndone | main/host/mosaico_display_settings_model.h:99-119 | when a temporary edit is accepted, that it leaves base, revisions and pending write alone, and that its end restores what was in effect |
| DisplaySettings.OnlyLiveOverlaySaved | main/host/mosaico_display_settings_model.h:125-128 | a confirmed save takes the overlay exactly while its lease lives |
| DisplayEdits.ExpiryExactly | main/host/mosaico_display_settings_model.h:103-105 | a lease ends if and only if its time is up or it has become unsafe, and the base is untouched |
| DisplayEdits.RequestExactly | main/host/mosaico_display_settings_model.h:131-136 | an edit becomes the base and ends any lease; it gets a new revision to be written if and only if it changes the base or repeats one whose write failed |
| DisplayEdits.FieldEditExactly | main/host/mosaico_display_settings_model.h:120-124 | a field edit starts from the base, not from an overlay |
| DisplayEdits.TemporaryExactly | main/host/mosaico_display_settings_model.h:112-119 | a temporary edit starts from what is in effect and is refused exactly for a bad lease or patch |
| DisplayEdits.CompletionExactly | main/host/mosaico_display_settings_model.h:140-143 | a success is remembered; only a write of the present revision settles the edit |
| DisplaySettings.Model.Restore | main/host/mosaico_display_settings_model.h:99-102 | ending a lease |
| DisplaySettings.Model.Expire | main/host/mosaico_display_settings_model.h:103-105 | ending a lease whose time is up or which has become unsafe |
| DisplaySettings.Model.SetTemporary | main/host/mosaico_display_settings_model.h:112-119 | a temporary edit, or no change at all |
| DisplaySettings.Model.Request | main/host/mosaico_display_settings_model.h:131-136 | a persistent edit and its new revision |
| DisplaySettings.Model.RequestPersistentField | main/host/mosaico_display_settings_model.h:120-124 | a persistent edit of one field of the base |
| DisplaySettings.Model.SaveTemporary | main/host/mosaico_display_settings_model.h:125-128 | the confirmed save of what is in effect |
| DisplaySettings.Model.Completed | main/host/mosaico_display_settings_model.h:140-143 | a write acknowledged, late or not |
| DisplayService.CleanMeansStored | main/host/mosaico_display_settings.cpp:106-142 | in every run before the revision counter wraps: no pending edit, no error and saved revision current mean that flash reads back as the base configuration; no revision is attempted twice |
| DisplayService.RebootLosesNothing | main/host/mosaico_display_settings_model.h:63-68 | when a reboot is reported ready, whenever it comes the next boot loads the same configuration without an error |
| DisplaySections.ReadyExactly | main/host/mosaico_display_settings_model.h:63-68 | in every run before the revision counter wraps: a loaded unit is ready for a reboot if and only if no edit is pending and none failed |
| DisplayService.OneWriter | main/host/mosaico_display_settings.cpp:106-142 | two tasks are never inside service together, and the one that is is the recorded owner |
| DisplayService.ClaimIsFinal | main/host/mosaico_display_settings.cpp:143-176 | once a claim succeeds no other task is inside service until a reboot, with a fallback task created before, late or again |
| DisplayService.StoredWasAsked | main/host/mosaico_display_settings.cpp:65-142 | the stored blob is the first one or encodes what an earlier load, request, field edit or confirmed live lease asked for; the old key is never written |
| DisplayService.StepInv | main/host/mosaico_display_settings.cpp:29-176 | every section of every task keeps the invariants |
| DisplayWrites.CaptureExactly | main/host/mosaico_display_settings.cpp:113-129 | at a capture the task starts writing the base configuration with its revision if and only if the gates are open, the settings are loaded and an edit is pending, unattempted and a second old; otherwise it leaves |
| DisplayWrites.WritesOnlyPastGates | main/host/mosaico_display_settings.cpp:113-129 | over every run a task starts writing only at such a capture |
| DisplayWrites.FlashOnlyByWrites | main/host/mosaico_display_settings.cpp:130-137 | flash changes only by the holder's write, or one cut short by a reboot, and to the encoding of what it captured |
| DisplayWrites.EnterExactly | main/host/mosaico_display_settings.cpp:112-113 | service is entered if and only if no other task is inside and the caller is the recorded owner |
| DisplayWrites.EditIsStored | main/host/mosaico_display_settings.cpp:106-142 | over every run: an edit due at a capture with open gates, whose write lands and reports success with no edit between, leaves the settings clean and flash reading back as it |
| DisplaySections.LoadExactly | main/host/mosaico_display_settings.cpp:29-52 | what loading makes of the current and the old key, readable, unreadable, missing or failing, and of the screen's brightness; flash is not written |
| DisplaySections.LooksEndLeases | main/host/mosaico_display_settings.cpp:53-64 | diagnostics and every call of service end a lease exactly if it is over or unsafe |
| DisplaySections.UnsafeRefuses | main/host/mosaico_display_settings.cpp:82-105 | an unsafe moment refuses temporary edits and their saving and ends the lease |
| DisplaySections.FallbackExactly | main/host/mosaico_display_settings.cpp:151-176 | a fallback is created only where there is no owner, and a task that cannot be created is an error |
| DisplaySections.OwnersExactly | main/host/mosaico_display_settings.cpp:143-161 | the fallback's task becomes the writer only if the fallback is still the owner; a claim makes its caller the writer unless the network already is |
| DisplaySections.AttemptsExactly | main/host/mosaico_display_settings.cpp:123-129 | the record of attempts grows by exactly the revisions that writes are started for |
| DisplayTasks.Display.ReadSettings | main/host/mosaico_display_settings.cpp:32-50 | loading the current or the old key, without ever writing |
| DisplayTasks.Display.Init | main/host/mosaico_display_settings.cpp:29-52 | loading once, with the brightness found |
| DisplayTasks.Display.Edit | main/host/mosaico_display_settings.cpp:65-73 | a request under the settings lock |
| DisplayTasks.Display.SaveTemporary | main/host/mosaico_display_settings.cpp:95-105 | the confirmed save, refused while unsafe |
| DisplayTasks.Display.TakeDue | main/host/mosaico_display_settings.cpp:114-129 | what is due is copied and marked attempted under the settings lock, if and only if the gates are open, the settings loaded and the edit due |
| DisplayTasks.CheckGates | main/host/mosaico_display_settings.cpp:114-122 | the gates are open if and only if no update is busy, unconfirmed, staged or being validated and the running image is marked valid |
| DisplayTasks.Display.Acknowledge | main/host/mosaico_display_settings.cpp:140-141 | the late completion |
| DisplayTasks.Display.ClaimNetworkOwner | main/host/mosaico_display_settings.cpp:143-150 | the claim succeeds exactly once |
| DisplayTasks.Display.StartFallbackOwner | main/host/mosaico_display_settings.cpp:151-176 | the fallback's creation and its failure |
| DisplayTasks.Display.FallbackBegins | main/host/mosaico_display_settings.cpp:156-161 | the fallback task becomes writer only if it is still the owner |
| OtaMigrate.Select | tools/mosaico_ota6m_migrate.py:55-78 | the loop over both sectors gives the plan or the first error |
| OtaMigrate.SelectionIsSafe | tools/mosaico_ota6m_migrate.py:55-78 | for every accepted pair: ota_0 boots from the kept sector, still does with the other one erased, and ota_1 boots once the new sector is in place, whose number is the unique highest |
| OtaMigrate.ChooseExactly | tools/mosaico_ota6m_migrate.py:68-75 | a choice exists if and only if the loader would boot ota_0 from an untied entry marked valid and a higher number is left |
| OtaEntries.ErrorsExactly | tools/mosaico_ota6m_migrate.py:68-75 | which error an impossible choice gives |
| OtaEntries.RefusedExactly | tools/mosaico_ota6m_migrate.py:55-78 | which error an unreadable pair of selectors gives, the first one deciding |
| OtaEntries.ZeroNumber | tools/mosaico_ota6m_migrate.py:50-52 | the selector CRC starts from a zero register |
| OtaMigrate.ComplementTiles | tools/mosaico_ota6m_migrate.py:87-94 | the complement exists if and only if the intervals are nonempty, inside the flash and disjoint, and then every byte is in exactly one interval or gap |
| OtaMigrate.FindComplement | tools/mosaico_ota6m_migrate.py:87-94 | the sweep over the sorted intervals computes it |
| OtaWrites.PlanIsDisjoint | tools/mosaico_ota6m_migrate.py:81-84 | the planned ranges have a complement and stay clear of the running application and everything below the table |
| OtaWrites.EveryPrefixBoots | tools/mosaico_ota6m_migrate.py:205-264 | after every prefix of the writes, and with the other selector only erased, the untouched first application boots; after all of them the complete new image does |
| OtaWrites.ImageIsHarmless | tools/mosaico_ota6m_migrate.py:255-264 | whatever stands in the image's place meanwhile, the same application boots |
| OtaWrites.OthersUntouched | tools/mosaico_ota6m_migrate.py:217-268 | nothing outside the planned ranges changes |
| OtaWrites.Rom.WriteAll | tools/mosaico_ota6m_migrate.py:255-264 | the three writes in order, each verified before the next |
| OtaWrites.GapsUntouched | tools/mosaico_ota6m_migrate.py:217-268 | after verified writes the last look at the protected gaps never fails |
| OtaWrites.RestoreUndoes | tools/mosaico_ota6m_migrate.py:236-247 | whatever stands in the planned ranges, the backups written in their order bring back every byte, or every byte outside the image's place if its loss was authorized |
| OtaWrites.RestoreBoots | tools/mosaico_ota6m_migrate.py:236-249 | after every prefix of the recovery, from every stage of the migration, the untouched first application boots |
| OtaBackup.BackupRegion | tools/mosaico_ota6m_migrate.py:174-191 | the block and sector loops give the specified backup or refusal |
| OtaBackup.BackupIsExact | tools/mosaico_ota6m_migrate.py:167-191 | a backup reported complete is byte for byte what stands in flash, erased blocks that were never read included, if no comparison of digests deceives |
| OtaChecks.BackupExactly | tools/mosaico_ota6m_migrate.py:167-191 | if no comparison of digests deceives: a backup is complete if and only if it is aligned and not empty, the host keeps it, and every sector outside a whole erased block is delivered as it stands |
| OtaChecks.UnderstoodExactly | tools/mosaico_ota6m_migrate.py:207-215 | what the checks before the backups come to: reads, table, selectors, and the digests of both expected applications |
| OtaChecks.PreservedExactly | tools/mosaico_ota6m_migrate.py:218-238 | which regions the backups need |
| OtaWrites.Rom.Prepare | tools/mosaico_ota6m_migrate.py:207-217 | the table, the selectors, the digests of both applications, and the digests of the gaps |
| OtaWrites.Rom.BackUp | tools/mosaico_ota6m_migrate.py:218-238 | the rollback files hold the regions to be overwritten, or nothing is written; the comparisons after the backups cannot fail |
| OtaWrites.Rom.Perform | tools/mosaico_ota6m_migrate.py:205-269 | done exactly if every check and read, every backup and all three writes succeed; no write before all checks and backups; wherever it stops the unit boots safely |
| UsageHours.Aggregate | tools/history_store.py:235-287 | the loops over pairs and hours compute the specified rows |
| UsageHours.HoursConserve | tools/history_store.py:250-286 | the 24 reported differences add up to the counter at the last sample not after now less the counter before the first hour, or at the first sample |
| UsageHours.HourIsHonest | tools/history_store.py:263-286 | covered time never exceeds the elapsed part of the hour; tokens are shown only without corrections; observed means no outage and almost full coverage |
| UsageHours.ReportedParts | tools/history_store.py:262-276 | without a correction the reported difference is the gains plus the outage differences |
| UsageHours.CoverageBounded | tools/history_store.py:253-257 | coverage never exceeds the elapsed time up to the last sample |
| UsageSums.HourFigures | tools/history_store.py:250-276 | each figure of an hour is its own sum over the pairs whose later sample lies in it: gains of pairs at most 180 seconds apart, differences across longer ones, losses, all differences, and the numbers of both kinds |
| UsageSums.HourCovered | tools/history_store.py:253-257 | covered time is the number of the hour's seconds that lie between two samples at most 180 seconds apart |
| UsageSums.QualityExactly | tools/history_store.py:277-286 | when an hour is a correction, observed, partial, a gap or missing, in terms of the pairs and the covered seconds, in both directions |
| UsageSums.HourOutages | tools/history_store.py:266-273 | the gap shown runs from where the first outage of the hour begins to where the last one ends, and there is none without one |
| UsageHours.SelectionLosesNothing | tools/history_store.py:185-191 | reading 25 hours and one earlier sample shows the same hours as reading everything |
| QuotaTrend.Compute | tools/quota_trend.py:35-75 | the loops with the moving predecessor compute the projection |
| QuotaTrend.FillSlots | tools/quota_trend.py:51-67 | filling the buckets in place |
| QuotaTrend.FindMarks | tools/quota_trend.py:40-49 | the marks against the previous capture of any limit |
| QuotaTrend.EveryRowShown | tools/quota_trend.py:58-66 | every capture of the limit in the window lands in exactly one bucket |
| QuotaTrend.PointsIncrease | tools/quota_trend.py:52-57 | point times strictly increase inside the window, filled or not |
| QuotaTrend.HoldsLatest | tools/quota_trend.py:58-66 | a point is empty exactly if nothing lands in it and else holds its latest capture |
| QuotaTrend.FlagsGathered | tools/quota_trend.py:45-66 | the break flag is set if and only if some capture in the point does not follow the capture before it with the same limit and reset within 180 seconds; the reset flag if and only if some capture in it follows one of the same limit with another reset |
| QuotaTrend.UnflaggedIsJoined | tools/quota_trend.py:45-66 | an unflagged point continues the previous filled one by captures of one limit and reset, each at most 180 seconds apart |
| QuotaTrend.ProjectionIs | tools/quota_trend.py:35-75 | the shown limit is the newest capture's, and availability means a capture within the week |
| QuotaTrend.NewestIsShown | tools/quota_trend.py:37-39 | the captured time and limit are those of the newest capture not after now, the age is the given one or 0; without such a capture all are empty |
| LocalUsage.ScanAgain | tools/local_usage.py:63-73 | reading on after a log has grown gives what one pass gives |
| LocalUsage.AnyIncrements | tools/local_usage.py:49-78 | any sequence of visits to a growing log emits the events of one pass |
| LogLines.PassExactly | tools/local_usage.py:11-38 | one pass over any complete lines and a partial one emits exactly the events of the lines that yield one, in order: a plausible count with some use whose total differs from that of the last plausible count before it, recent enough; it ends behind the last complete line with that total |
| LogLines.YieldedExactly | tools/local_usage.py:29-38 | an event is emitted if and only if some line yields it |
| LogLines.EveryLog | tools/local_usage.py:63-66 | every log is complete lines and a partial one |
| LocalUsage.NothingLost | tools/local_usage.py:12-84 | if no two records share an id: through any visits, losses and resends, every event that was read is in the outbox or collected with its own time and tokens, and what the collector holds is the event of a log, unless that log was replaced |
| LocalUsage.RecordedOnce | tools/history_store.py:118-120 | what the collector holds under an id at any point of a run it holds unchanged at every later point, through losses, resends and replaced logs |
| LocalUsage.CollectedExactly | tools/local_usage.py:12-84 | if no two records share an id: with all logs read and the outbox empty, the collector holds exactly the logged events, values included |
| LocalUsage.NeverRefused | tools/history_store.py:105-117 | with one clock the collector accepts every batch the scanner sends |
| LogMoves.VisitExactly | tools/local_usage.py:52-76 | a visit reads from the cursor if it still fits the log and else from the start, adds to the outbox what it reads, and sets the cursor if it gets to the end |
| LogMoves.SendExactly | tools/local_usage.py:80-81 | at most a thousand events of the outbox are sent, any number of times |
| LogMoves.ArriveExactly | tools/history_store.py:105-121 | the collector takes a batch whole or not at all, exactly if every event is at most 90 days old, at most five minutes ahead, and counts 1 to 2^53 - 1 |
| LogMoves.AcknowledgeExactly | tools/local_usage.py:83-84 | only what the collector has stored is acknowledged, and then leaves the outbox |
| LogMoves.CanBeEmptied | tools/local_usage.py:80-84 | from every state of every run the outbox can be emptied into the collector |
| LocalUsage.Scanner.ScanFile | tools/local_usage.py:50-76 | a log not modified for thirty days is skipped; otherwise the line loop stores events and cursor, or, if reading fails on the way, the events of the lines read so far and no cursor |
| LocalUsage.Scanner.Acknowledge | tools/local_usage.py:83-84 | acknowledged events leave the outbox |
| RxIngress.TargetMatches | main/debug/mosaico_rx_ingress.h:44-61 | a target frame has the filter's source address and port and headers that fit its length; the converse is RxFields.ClassExactly |
| RxFields.ClassExactly | main/debug/mosaico_rx_ingress.h:44-61 | for every frame with at most two tags, by its bytes: when it is invalid, not IPv4, a fragment, not TCP, other TCP or a target, each in both directions |
| RxFields.NoPayload | main/debug/mosaico_rx_ingress.h:46-48 | a frame too short for its tags or with more than two is invalid |
| RxFields.FieldsRecorded | main/debug/mosaico_rx_ingress.h:44-61 | for every frame laid out byte by byte from field values: the class and every field recorded, sequence and acknowledgement numbers included |
| RxIngress.MetadataRing.Push | main/debug/mosaico_rx_ingress.h:65 | a record behind the others, or a full ring unchanged |
| RxIngress.MetadataRing.Pop | main/debug/mosaico_rx_ingress.h:66 | the oldest records in order, at most 16 |
| RxLease.RecordsMatchLease | main/debug/mosaico_rx_ingress.cpp:21-67 | whatever falls between a call's two sections, every buffered record belongs to the present lease |
| RxLease.TargetsConserved | main/debug/mosaico_rx_ingress.cpp:39-65 | targets counted since the lease began are those drained, buffered or dropped |
| RxLease.StaleCallsAreIgnored | main/debug/mosaico_rx_ingress.cpp:21-65 | a call in flight when a request is accepted, the lease expires or a new lease starts: however the run goes on, its second section changes nothing but ending the call |
| RxLease.RequestDisables | main/debug/mosaico_rx_ingress.cpp:21-24 | after a request nothing is recorded until a lease for that very request starts |
| RxFields.LeaseStarts | main/debug/mosaico_rx_ingress.cpp:21-41 | an accepted request starts its lease at the next two service sections, with its target, deadline, an empty ring and counters at 0 |
| RxFields.AliveForItsTime | main/debug/mosaico_rx_ingress.h:29 | a lease lives for exactly its seconds, wherever the 32-bit clock wraps |
| RxFields.TargetIsKept | main/debug/mosaico_rx_ingress.cpp:44-66 | under a live lease, a call carrying a target frame that leaves in time under the same generation with room in the ring adds exactly the record of that frame's fields and counts it |
| RxSections.RequestExactly | main/debug/mosaico_rx_ingress.cpp:21-24 | which requests are accepted, by address, port and time; an accepted one turns the filter off and waits, any other changes nothing |
| RxSections.TakeExactly | main/debug/mosaico_rx_ingress.cpp:30-36 | the service task ends a lease whose time is up and takes what is wished for |
| RxSections.SetUpExactly | main/debug/mosaico_rx_ingress.cpp:37-41 | the taken lease starts with its target and deadline, an empty ring and no counts unless something was requested since |
| RxSections.EnterExactly | main/debug/mosaico_rx_ingress.cpp:47-55 | a call under a live lease is seen and carries its generation; any other turns the filter off |
| RxSections.LeaveExactly | main/debug/mosaico_rx_ingress.cpp:58-65 | a call that leaves while its lease lives counts once by its result and, on the watched device, once by its class; any other changes no count and no record |
| RxSections.EveryCallCounted | main/debug/mosaico_rx_ingress.cpp:47-65 | in every run, while a lease is on: the calls it saw are those counted by result and those in flight, and the watched ones are those counted by class and those in flight |
| RxLease.StepInv | main/debug/mosaico_rx_ingress.cpp:21-67 | every section keeps the invariant |
| RxFilter.Filter.Request | main/debug/mosaico_rx_ingress.cpp:21-24 | the request section |
| RxFilter.Filter.ServiceTakes | main/debug/mosaico_rx_ingress.cpp:30-36 | expiry and taking the pending request |
| RxFilter.Filter.ServiceSetsUp | main/debug/mosaico_rx_ingress.cpp:37-41 | starting the lease unless something was requested in between |
| RxFilter.Filter.Enter | main/debug/mosaico_rx_ingress.cpp:47-55 | a call's first section and its parse |
| RxFilter.Filter.Leave | main/debug/mosaico_rx_ingress.cpp:58-65 | a call's second section |
| RxFilter.Filter.Drain | main/debug/mosaico_rx_ingress.cpp:26 | draining records |
| NandPolicy.PolicyIsTruthful | main/host/gauge_trace_nand_backend.cpp:41-164 | wherever the power failed, a stored NAND policy means that a sealed, nonempty, disarmed trace was saved there after the only erase and, unless NAND was written again, still stands there; NVS is used only while no policy was ever stored |
| NandPolicy.KeyStays | main/host/gauge_trace_nand_backend.cpp:53-68 | a stored policy never disappears, so NVS is never used again |
| NandPolicy.OpenAgainExactly | main/host/gauge_trace_nand_backend.cpp:41-126 | from any reached state some continuation uses a storage again if and only if no move is interrupted there: the key pending and no worker between its mark and its activation |
| NandPolicy.InterruptedStaysClosed | main/host/gauge_trace_nand_backend.cpp:41-52 | a pending policy stays closed: after an interruption both storages are closed for good |
| NandMoves.FirstReadExactly | main/host/gauge_trace_nand_backend.cpp:41-52 | the first read of a boot selects by the stored key: none NVS, 2 NAND, anything else or a failed read neither |
| NandMoves.SelectedExactly | main/host/gauge_trace_nand_backend.cpp:131-137 | while a worker exists both storages are closed, and otherwise the policy read at this boot decides |
| NandMoves.StartExactly | main/host/gauge_trace_nand_backend.cpp:165-178 | a move starts if and only if it is the boot's first attempt, NVS is in use, the snapshot may be moved, and caller, memory and task creation allow it |
| NandMoves.MovableExactly | main/host/gauge_trace_nand_backend.cpp:168 | a stored trace may be moved if and only if it has rows and is not being recorded |
| NandMoves.MoveExactly | main/host/gauge_trace_nand_backend.cpp:95-126 | for all outcomes of the worker's steps: which key, NAND content and storage in use it leaves; NAND is in use with exactly the snapshot if and only if every step succeeded |
| NandMoves.PowerLossExactly | main/host/gauge_trace_nand_backend.cpp:95-126 | a power loss changes only what was being written |
| NandPolicy.Backend.Read | main/host/gauge_trace_nand_backend.cpp:41-52 | reading the policy once |
| NandPolicy.Backend.WritePolicy | main/host/gauge_trace_nand_backend.cpp:53-68 | the policy counts only if no call failed and the stored key reads back as it |
| NandPolicy.Backend.Select | main/host/gauge_trace_nand_backend.cpp:131-137 | where a load or save goes |
| NandPolicy.Backend.BeginFormat | main/host/gauge_trace_nand_backend.cpp:165-178 | starting the move at most once per boot, after reading the policy and checking CRC, count and recording flag of the snapshot |
| NandPolicy.Backend.FormatWorker | main/host/gauge_trace_nand_backend.cpp:95-126 | the worker's nested steps |

## Left out

- TraceRuns.EveryRunStorable: sample flags are the six that `convert` can set, and the clock does not run backwards within a boot.
- LocalUsage.CollectedExactly: the clock is fixed, log identities are never reused, and a log is not rewritten in place under one identity; that ids do not collide is a hypothesis, and their 64-digit form is not checked.
- DisplayService.CleanMeansStored: revisions are 32 bits wide and the statement stops where their counter wraps.
- RxLease.RecordsMatchLease: generations and counters are counted without their 32-bit wrap.
- OtaWrites.Rom.Perform: the table write is not torn, as the source documents that step as not atomic; digests are a function given from outside, of which it is assumed that no comparison made in the run deceives, and whether the host keeps its files is one outcome.
- QuotaTrend.UnflaggedIsJoined: rows are strictly increasing in time, as the database's key delivers them.
- OutputRun.Transaction.Run: an interrupt raised outside a call, the checks of timeout, port and output path, and the text of errors; the four raw settings are kept as they are.
- OutputProtocol.AnswersAreFresh: wait times are not modelled, a timeout may come at any point; the text of log lines is not modelled, whether a write of one fails is.
- NandPolicy.Backend.FormatWorker: what the NAND store's confirmed save leaves behind is the image given to it; the store itself is not part of this model, nor are the displayed phase and error codes.
- Hardware and SDK calls (gauge, Wi-Fi and BLE, NVS and NAND drivers, serial ports, vendor libraries): a success or failure, and for storage what is left behind.
- Torn writes inside one flash operation, and time limits: no liveness is claimed.
- The gauge's admission gates in the recorder and the telemetry conversion: one sample or none per service call.
- The trace's PSRAM allocation and its status lines; in the recorder only the NVS path is followed, the NAND path's policy is `NandPolicy`.
- Image validation, certificates, the host files and JSON of the migration.
- The daily buckets, revision table and retention of the usage store, and its SQLite, JSON and HTTP layers.
- Quota snapshots' field checks (`weekly_snapshot`), local date labels and the ages in the responses.
- Address and number arguments of the receive filter as text, and its snapshot.
- The wide trees of gauge planning scripts, power statistics, packaging and UI: long lists of checks without depth.

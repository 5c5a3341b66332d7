# PCI platform: protocols, mirrors and control state machines

The platform drives traffic signals. Its services share one signal table; drivers mirror the table to
hardware and networks, and control services decide what is written to it. These Dafny modules model the
byte-level protocols, the mirrors and the control state machines of the platform, and prove what they keep
over every input, every stream and every run. Where the code does not do what one would expect of it, the
exact condition under which it does is proved, or a concrete run that goes wrong is exhibited.

| file | what it models |
|---|---|
| `xkop_check_code.dfy`, `xkop_wire.dfy`, `xkop_sender.dfy` | the XKOP driver: check code, packets, receive buffer with resynchronisation, change-driven sender |
| `ber.dfy` | the hand-written BER encoder of SNMPv2c INFORMs (ITU-T X.690 sections 8.1.3, 8.3 and 8.19; RFC 1901 section 3; RFC 3416 sections 3 and 4.2.7), the response decoder and the request ids |
| `rbe_report.dfy` | what a Reply By Exception INFORM contains: identifiers, grouping by SCN, varbinds and the values in them |
| `rbe.dfy` | the Reply By Exception sender: pending, batch, holdoff, last sent, backlog and keep-alive, and what the instation was told |
| `mask_write.dfy` | the two-phase ("anti-drop") write of a bit-mapped control field, used by both control services |
| `utc_control.dfy` | the UTC outstation: loaded control mapping, operation mode, control SETs, watchdog |
| `offline.dfy` | the plan player: timetable, cycle arithmetic, ticks, reloads |
| `scn_config.dfy` | the editor of the SCN mappings: printer and parser of `ug405.cfg` |
| `signal_table.dfy` | the signal table: ownership, conditioning, notifications, mirrors, recording and replay |
| `rpdb.dfy` | the RPDB driver: framing over a cut-up stream, pipelined writes |
| `agd.dfy` | the AGD detector service: zone signals and their OR-aggregates |
| `kernel_io.dfy` | the MOVA kernel's detector latch and output cache |
| `scoot.dfy` | the SCOOT occupancy sampler |
| `bytes.dfy` | bytes and an option type |

## How to read the models

Objects that the code updates in place are classes; each method is proved equal to a step function on values,
and the lemmas are about those functions and about runs of them. Every thread callback and loop body is one
atomic step. Time, acknowledgements, chunk boundaries, accepted writes and file contents are inputs, so the
results hold for all of them. The log of a `BusClient` is everything the service has written, in order;
"the bus" in the control modules is the last value that this service wrote, 0 before the first write.

Some results assume that a signal stands for one thing only (`Distinct`, `Separate`, `DistinctTargets`). For control
signals the mapping editor refuses a name used twice (web/api/routes/config.py:296-311); the loader does not, and
`MaskWrite.ReadBackIff` shows what is lost then.

## What turned out differently from what one would expect

- The XKOP receiver never looks at the check code, so the detection theorems are about what a receiver that
  did would gain. `StrayByteDelaysPacket`: one stray byte leaves a complete packet unread until more arrives.
- `ColumnOidEqualIff`: the reply fields CA and GPn share a column, so their object identifiers are the same.
- `FlickerStale`: an INFORM carries the values on the bus when it is built, but the sender records those of the batch. A signal
  that goes on, off and on again can so stay off at the instation with nothing left to send; `InformIsToldIff` says when
  record and instation agree. `FinishTrackedIff`: a failed INFORM drops its batch, and a held-off batch overwrites newer values.
- `KeepAliveTrackedIff`, `KeepAliveToldIff`, `KeepAliveHidesChange`: the keep-alive records the inverted value of inverted
  signals, which hides the next change. `HoldoffIff`: it does not look at the holdoff either, so the INFORMs about an SCN keep
  the holdoff only if the keep-alive is off or slow enough.
- `EncodeLoopEndsIff`: the integer encoder does not end for a negative value. `MaskFitsIff`: reading or reporting a bitmask fails
  as soon as a signal with a bit number above 8 is on. The thread that tries to send such a report ends (`SendingEndsIff`,
  `EndedIsSilent`).
- `FreshTimestampIff`: a command stamped just before midnight and received just after it is rejected. `StaleByDays`: one exactly
  a day old is accepted.
- `DemotionBreaks`: after a SET of mode 1 the grace period of the clock-jitter check is not restarted, so an
  outstation whose clock never jumped can be dropped for jitter, however long the grace period.
- `ReloadQuietIff`, `StuckUntilWanted`: a tick that reloads the plan file forgets which SCNs were active without switching
  their outputs off. `TimeModeAdvancesIff`: the cycle jumps at the base time unless it divides the day.
- `StartsRightIff`, `UnpaddedMeans`: starts compare as text, so one of three digits, as the editor makes of `7:00`, comes into
  force as if it had a 0 at its end: `130` at 13:00, `700` never (`UnpaddedInstances`).
- `SavesGrow`: every save of the mappings adds a blank line to the file; sections between the first SCN and LIVE are dropped
  (`WrittenLines`).
- `InvertedNeverReplays`, `InvertedReplaysIff`: a recording with an inverted signal does not replay as it was, unless that is
  scaled to nothing. The comment at
  iobus/driver_recorder.py:14-16 says it does, because double inversion is the identity; but the recorded value is inverted
  already, so replaying inverts it once more for the reader.
- `InStepIff`: a time-out inside an RPDB message drops what was received of it; `TimeoutForgesMessage`: the rest is then read as
  a new message.
  `AcknowledgedRoundShows`: an output that reads -1 is not sent on a new connection, since -1 stands for nothing sent.
  `InSyncIff`, `StaleForGood`: a burst that the controller applies without acknowledging leaves it with a value that is never corrected.
- `AbortedFrameIff`, `AbortedDetection`: a malformed zone in an AGD frame leaves the `any` signals as they were, and a detection
  announced before it is not seen in them; `RepairIff` says which later frame corrects that.
- `NotRetried`: a MOVA output whose write was rejected is not written again while it keeps its value.

## Model

| member | source | states |
|---|---|---|
| `XkopCheckCode.EntryIsShifted` | iobus/driver_xkop.py:35-68 | every table entry is its index shifted right eight times with 0x8408, the shift extending the sign |
| `XkopCheckCode.EntryXor` | iobus/driver_xkop.py:35-68 | the table is linear over exclusive or |
| `XkopCheckCode.HighBytesDistinct` | iobus/driver_xkop.py:35-68 | the high bytes of the entries are a permutation |
| `XkopCheckCode.CheckCode` | iobus/driver_xkop.py:71-76 | the loop over the two register bytes computes the fold of the step function |
| `XkopCheckCode.WriteCheckCode` | iobus/driver_xkop.py:71-79 | the array keeps everything but the two bytes after the message, which become the code of the bytes from skip on |
| `XkopCheckCode.RunInjective` | iobus/driver_xkop.py:71-76 | equal further bytes never make different registers equal, nor equal ones different |
| `XkopCheckCode.BurstCollidesIff` | iobus/driver_xkop.py:71-76 | over any linear table with distinct high bytes, when a burst of three bytes leaves the register unchanged |
| `XkopCheckCode.BurstUndetectedIff` | iobus/driver_xkop.py:35-79 | exactly which changes of three adjacent bytes, in messages of any length, the check bytes miss |
| `XkopCheckCode.TwoByteChangeDetected` | iobus/driver_xkop.py:35-79 | every change confined to one byte or to two adjacent bytes is detected |
| `XkopWire.MakePacket` | iobus/driver_xkop.py:84-99 | the array filled in place is the specified packet, check bytes included |
| `XkopWire.PacketLayout` | iobus/driver_xkop.py:84-99 | every octet of a packet: 0xca, 0x35, type 0, per slot the index and the 16-bit value with the high octet first, 255 and zeros for unused slots, and the check code of octets 2 to 14 |
| `XkopWire.PacketRoundTrip` | iobus/driver_xkop.py:84-99 | up to four updates decode to themselves, values modulo 65536, in order |
| `XkopWire.PacketFaithfulIff` | iobus/driver_xkop.py:84-99 | a packet gives back exactly the updates it was made from if and only if they are at most four, with index below 255 and 16-bit value |
| `XkopWire.ValueChangeDetected` | iobus/driver_xkop.py:84-99 | changing one value of a packet changes its check bytes unless the value on the wire is the same |
| `XkopWire.RecvLoop` | iobus/driver_xkop.py:301-336 | the loop over chunks makes the specified writes and ends with the specified buffer |
| `XkopWire.ParseAppend` | iobus/driver_xkop.py:312-327 | later bytes never change what earlier bytes gave |
| `XkopWire.ReceiveRefinesParse` | iobus/driver_xkop.py:301-330 | for every stream, garbage included, and every chunking: the writes made, then what a pure parser finds in the leftover, are the parser's output on the whole stream |
| `XkopWire.PassIsCompleteIff` | iobus/driver_xkop.py:312-319 | exactly when a pass over the buffer leaves nothing that could already be used |
| `XkopWire.StrayByteDelaysPacket` | iobus/driver_xkop.py:312-319 | one stray byte leaves a whole packet unread |
| `XkopWire.AlignedIsImmediate` | iobus/driver_xkop.py:301-330 | without stray bytes every write is made by the chunk that completes its packet |
| `XkopSender.PacketsRoundTrip` | iobus/driver_xkop.py:265-270 | batches of four put every update into exactly one packet, in order |
| `XkopSender.RoundMirrors` | iobus/driver_xkop.py:257-270 | after a round the peer's view agrees with what is recorded as sent, and with the value read if and only if that is a 16-bit value |
| `XkopSender.Sender.Connect` | iobus/driver_xkop.py:188-202 | a new connection forgets what was sent, so that everything is sent again |
| `XkopSender.FirstRound` | iobus/driver_xkop.py:257-263 | on a new connection exactly the outputs that do not read -1 are due, with the values read |
| `XkopSender.KeepAliveIsChecked` | iobus/driver_xkop.py:27 | the last two octets of the keep-alive are the check code of the thirteen before them |
| `XkopSender.Sender.CollectPending` | iobus/driver_xkop.py:257-263 | the changed outputs are collected in order and recorded as sent |
| `XkopSender.Sender.SendBatches` | iobus/driver_xkop.py:265-276 | without a send error the bytes sent are the packets of all updates |
| `XkopSender.Sender.SendRound` | iobus/driver_xkop.py:248-292 | every round keeps the mirror invariant, and one that keeps the connection brings the peer's view to the values read |
| `XkopSender.PeerIsUpToDate` | iobus/driver_xkop.py:248-330 | sender and receiver together: however the peer's reads cut the stream, it has written exactly the sender's view |
| `Ber.DecodeLength` | ug405/protocol/rbe.py:410-418 | the loop reads the definite length at a position, or fails where indexing would |
| `Ber.FieldRoundTripIff` | ug405/protocol/rbe.py:319-325 | a field reads back exactly if its content is shorter than 65536 octets |
| `Ber.EncodeLoopEndsIff` | ug405/protocol/rbe.py:331-334 | the loop comes to an end if and only if the integer is not negative |
| `Ber.EncodeInt` | ug405/protocol/rbe.py:327-338 | where the loop ends, it gives the shortest two's complement octets |
| `Ber.IntIsShortest` | ug405/protocol/rbe.py:335-336 | the first octet shows a sign of 0, and is itself 0 only where that is needed |
| `Ber.IntRoundTrip` | ug405/protocol/rbe.py:327-338 | a strict two's complement reader gives the integer back |
| `Ber.EncodeOid` | ug405/protocol/rbe.py:302-317 | the loops give the base-128 form, or fail for an identifier of fewer than two components or too large a start |
| `Ber.EncodeComponent` | ug405/protocol/rbe.py:307-316 | the loop over groups of seven bits gives the recursive base-128 form |
| `Ber.OidRoundTripIff` | ug405/protocol/rbe.py:302-317 | an identifier reads back exactly if its first two components are standard ones |
| `Ber.VarBindsRoundTrip` | ug405/protocol/rbe.py:346-372 | any list of varbinds shorter than 64 KiB reads back in order |
| `Ber.BuildInformPacket` | ug405/protocol/rbe.py:358-386 | the packet is the encoding of the specified message, and a full decode gives version 1, the community, an InformRequest with the given id and no error, the uptime, the notification and then the given varbinds if and only if it has at most 65539 octets |
| `Ber.InformReads` | ug405/protocol/rbe.py:358-386 | field by field, with tags and identifiers written out, what a manager reads from the packet, again if and only if it has at most 65539 octets |
| `Ber.AnswerMatches` | ug405/protocol/rbe.py:376-446 | a readable Response to a packet that was so read gives the id of the INFORM if and only if it carries the id read |
| `Ber.Tags` | ug405/protocol/rbe.py:302-356 | the tags of the values, the varbinds and the message, and the short form of a length |
| `Ber.SampleOctets` | ug405/protocol/rbe.py:302-338 | the octets of some integers, identifiers and lengths, written out |
| `Ber.MessageRoundTripIff` | ug405/protocol/rbe.py:358-386 | every message reads back exactly if its packet has at most 65539 octets, and is unreadable otherwise |
| `Ber.ResponseMatching` | ug405/protocol/rbe.py:420-446 | whatever definite length forms the peer uses, the scan for the request id agrees with a full decode |
| `Ber.AcknowledgementMatches` | ug405/protocol/rbe.py:398-404 | a response that echoes the request id is recognised |
| `Ber.IdsEqualIff` | ug405/protocol/rbe.py:298-300 | two attempts have the same request id only if a multiple of 2^31 - 1 attempts lies between them |
| `RbeReport.ColumnOidEqualIff` | ug405/protocol/config.py:15-45 | two replies have the same object identifier only for the same SCN and field, but for CA and GPn |
| `RbeReport.ColumnOidIs` | ug405/protocol/rbe.py:225-236 | the arcs of a reply's identifier: base, column, 1, and the SCN's length and characters |
| `RbeReport.BitmaskColumns` | ug405/protocol/config.py:31 | which columns are bitmasks; of the two fields in column 25 one is |
| `RbeReport.GroupByScn` | ug405/protocol/rbe.py:210-221 | the nested loops give the non-empty groups in mapping order |
| `RbeReport.UnionOfGroups` | ug405/protocol/rbe.py:210-221 | grouping loses no mapped signal and changes no value |
| `RbeReport.BuildVarbinds` | ug405/protocol/rbe.py:223-247 | the nested loops give one varbind for each field with a signal in its group, as read from the bus: the mask of a bitmask field, the first signal of any other; they fail if a mask does not fit its octet |
| `RbeReport.MaskFitsIff` | ug405/protocol/rbe.py:238-242 | the mask of a field fits if and only if every bit has a number, and those above 8 are off |
| `RbeReport.GroupsFitIff` | ug405/protocol/rbe.py:223-247 | building fails for the groups if and only if some bitmask field that has one of the signals does not fit |
| `RbeReport.BinaryFitsIff` | ug405/protocol/rbe.py:238-245 | from every bus of 0/1 signals everything can be built if and only if the bits of every bitmask are 1 to 8 |
| `RbeReport.VarbindsOfGroups` | ug405/protocol/rbe.py:210-247 | grouping by SCN and then building is reporting, in mapping order, every field that has one of the signals |
| `RbeReport.GroupsAreReported` | ug405/protocol/rbe.py:261-263 | an INFORM about any group has a varbind, so that the check for none never applies |
| `RbeReport.IdentifiersDistinctIff` | ug405/protocol/rbe.py:223-247 | the identifiers in an INFORM are distinct if and only if it does not report both CA and GPn of an SCN |
| `RbeReport.PlaceIsTold` | ug405/protocol/rbe.py:235-245 | for every mapped bit of a field that is reported, a manager finds a varbind with the field's identifier, and reads in it the value on the bus, inverted if the mapping says so; unless both CA and GPn of an SCN are reported, every varbind of that identifier says so |
| `RbeReport.VarbindsGoodIff` | ug405/protocol/rbe.py:238-245 | the varbinds can be encoded if and only if no reported plain signal reads negative |
| `RbeReport.InformTells` | ug405/protocol/rbe.py:223-386 | grouping, building and encoding together: whenever the INFORM can be built, a manager reads from its packet the community, the id and these varbinds if and only if it has at most 65539 octets |
| `Rbe.FinishTrackedIff` | ug405/protocol/rbe.py:165-188 | exactly when the second half of a pass keeps a signal's latest value pending, in flight or recorded as sent |
| `Rbe.TakeTrackedIff` | ug405/protocol/rbe.py:154-163 | taking a batch loses nothing in a UTC mode, and everything not yet sent otherwise |
| `Rbe.InformIsToldIff` | ug405/protocol/rbe.py:251-294 | an INFORM leaves what is recorded as sent equal to what the instation was told, at every mapped bit, if and only if it does not arrive or the bus it was built from shows what is then recorded |
| `Rbe.StepTracksIff` | ug405/protocol/rbe.py:72-206 | for callbacks, both halves of a pass and keep-alives, in every operation mode, a step keeps every observed value waiting, being sent or recorded if and only if the sender loses nothing in it, whatever the instation hears |
| `Rbe.StepLosslessIff` | ug405/protocol/rbe.py:72-294 | and keeps the record equal to what the instation was told, too, if and only if what arrives is what is recorded |
| `Rbe.AcknowledgedTracks` | ug405/protocol/rbe.py:72-188 | in every run in the UTC modes, 2 and above, with the keep-alive off and every pass acknowledged and built, whatever the bus shows when it is, at every point the latest value observed of every signal is waiting, being sent or recorded; callbacks may come inside a pass if the holdoff is off |
| `Rbe.PromptRunTells` | ug405/protocol/rbe.py:72-294 | if, besides, passes run undivided on a bus that has the latest values observed, at every point the instation was told what is recorded, and when the sender is idle it was told the latest value of every signal at every bit reported |
| `Rbe.CallbackIff` | ug405/protocol/rbe.py:72-81 | for every mode: after a callback the signal waits with the new value if and only if it is mapped, not a VSn signal and the mode is at least 2, or it did before; nothing else differs |
| `Rbe.SentIffDue` | ug405/protocol/rbe.py:165-188 | what a batch has that is not on record is put on record by an acknowledged pass if every SCN concerned had its last INFORM the holdoff ago, and otherwise waits again |
| `Rbe.SilentBelowUtc` | ug405/protocol/rbe.py:72-206 | over every run below mode 2 nothing new waits, and nothing is told or recorded |
| `Rbe.RunTracks` | ug405/protocol/rbe.py:149-206 | from any state, a run in which the sender loses nothing keeps all observed values tracked |
| `Rbe.UndisturbedIsLossless` | ug405/protocol/rbe.py:176-188 | an acknowledged or held-off pass is lossless if no newer value for its batch came in and the bus still shows what was taken, and what is recorded |
| `Rbe.RunTells` | ug405/protocol/rbe.py:149-294 | a lossless run, keep-alives interleaved, keeps the instation told of what is recorded as well |
| `Rbe.TellsIsRead` | ug405/protocol/rbe.py:223-247 | what is kept as told is what a manager reads from the varbinds of the INFORM |
| `Rbe.SendingEndsIff` | ug405/protocol/rbe.py:165-188 | a pass is the last of its thread if and only if it has something to send that is not held off and cannot be built |
| `Rbe.EndedIsSilent` | ug405/protocol/rbe.py:149-206 | from then on, with the keep-alive off or ended too, in every run nothing is told or recorded any more |
| `Rbe.FlickerStale` | ug405/protocol/rbe.py:242-289 | a signal goes on, off before the INFORM about it is built, and on again: the sender ends idle, the instation has the signal off |
| `Rbe.HoldoffIff` | ug405/protocol/rbe.py:176-206 | over every run with a clock that does not go back, the acknowledged INFORMs about an SCN are at least the holdoff apart if and only if the keep-alive is off, or its period is no shorter than the holdoff, or none can ever be built |
| `Rbe.AliveTrackedIff` | ug405/protocol/rbe.py:190-206 | exactly when a keep-alive pass keeps a signal's latest value pending, in flight or recorded |
| `Rbe.KeepAliveTrackedIff` | ug405/protocol/rbe.py:190-206 | an acknowledged keep-alive keeps a signal tracked if and only if the mapping does not invert it |
| `Rbe.KeepAliveToldIff` | ug405/protocol/rbe.py:190-206 | it leaves record and instation in agreement if and only if no reported signal is inverted |
| `Rbe.KeepAliveHidesChange` | ug405/protocol/rbe.py:190-206 | after it the next change of an inverted signal is filtered out |
| `Rbe.RbeService.BusChanged` | ug405/protocol/rbe.py:72-81 | a callback changes the pending map as specified and nothing else |
| `Rbe.RbeService.Take` | ug405/protocol/rbe.py:154-163 | the first half of a pass |
| `Rbe.RbeService.Finish` | ug405/protocol/rbe.py:165-188 | the second half: filter, group, hold off or send, and whether that ends the thread |
| `Rbe.RbeService.Alive` | ug405/protocol/rbe.py:190-206 | a keep-alive pass: in a UTC mode and when due, an INFORM about all mapped signals, and whether that ends the thread |
| `Rbe.RbeService.CollectAll` | ug405/protocol/rbe.py:200-204 | the nested loops collect every mapped signal as read through the mapping |
| `Rbe.RbeService.Send` | ug405/protocol/rbe.py:251-294 | the varbinds built from the bus, or the failure to build them; last sent, last INFORM, backlog and what the instation was told after each outcome |
| `Rbe.DepthNonNegative` | ug405/protocol/rbe.py:283-294 | the backlog counter is never negative |
| `Rbe.StepBacklog` | ug405/protocol/rbe.py:283-294 | it goes up by one for an INFORM sent in vain, down by one, not below 0, for an acknowledged one, and stays otherwise |
| `MaskWrite.SetMask` | ug405/service.py:549-560 | the two loops write the set bits first, then clear the others, in configuration order |
| `MaskWrite.BitOfIs` | ug405/service.py:550-551 | bit n of a mask is worth 2 to the power of n - 1 |
| `MaskWrite.WithBitIs` | ug405/service.py:524-528 | so it is in the mask that the getter gathers |
| `MaskWrite.NoDropOut` | offline/service.py:350-362 | after every single write, a signal that is on in the old state and in the mask is on |
| `MaskWrite.NeverAllOffIff` | ug405/service.py:549-560 | no intermediate state is all off if and only if neither the old state nor the mask is |
| `MaskWrite.FinalState` | offline/service.py:350-362 | the field ends as the mask, and no other signal changes |
| `MaskWrite.GetMask` | ug405/service.py:524-528 | the getter gathers the odd values of the field's signals into one octet, and fails if they do not fit it |
| `MaskWrite.MaskFitsIff` | ug405/service.py:524-528 | they fit if and only if no signal with a bit number above 8 is on |
| `MaskWrite.ReadBack` | ug405/service.py:524-562 | reading after a write gives the mask, restricted to the mapped bits |
| `MaskWrite.ReadBackIff` | ug405/service.py:524-562 | that holds for every mask if and only if no two bits share a signal |
| `UtcControl.LoadControl` | ug405/protocol/config.py:145-166 | the loop over control lines gives the specified mapping and owned signals |
| `UtcControl.LoadedIsLastNamed` | ug405/protocol/config.py:145-166 | a bit stands for the signal that its last line names |
| `UtcControl.LoadedIsCovered` | ug405/protocol/config.py:163-166 | every signal that a SET through a loaded mapping can leave on is on the list of owned signals |
| `UtcControl.Outstation.SetMode` | ug405/service.py:411-436 | a SET of the operation mode, rejected or accepted, as `ModeSetIff` says |
| `UtcControl.ModeSetIff` | ug405/service.py:411-436 | it is accepted if and only if it is 1, 2 or 3 and at most one above the present mode; then it is in force, below 3 the listed signals are off, the grace period begins if the mode is a UTC mode and none has begun, and nothing else changes |
| `UtcControl.OtherEvents` | ug405/service.py:52 | a SET of the timeout is accepted from 0 to 180, and it and the outcome of an INFORM change nothing else |
| `UtcControl.Outstation.SetMaskValue` | ug405/service.py:530-562 | a SET of a bitmask field: time stamp, mode, two-phase write |
| `UtcControl.Outstation.SetSingleValue` | ug405/service.py:579-597 | a SET of any other field |
| `UtcControl.MaskSetShows` | ug405/service.py:530-562 | an accepted SET of a bitmask leaves every signal of the field as its bit of the first octet in mode 3, and off below it or without an octet; no other signal changes, and a SET with an invalid stamp changes nothing |
| `UtcControl.SingleSetShows` | ug405/service.py:579-597 | an accepted SET of any other field puts the value on its first signal in mode 3, 0 below it, and changes nothing else |
| `UtcControl.BitmaskFields` | ug405/protocol/config.py:32 | which control fields are bitmasks |
| `UtcControl.Outstation.DropToStandalone` | ug405/service.py:214-220 | a drop happens only from a UTC mode, and switches all owned signals off |
| `UtcControl.DropIs` | ug405/service.py:214-220 | a drop in a UTC mode goes to mode 1, switches off every listed signal and forgets when UTC operation began; in mode 1 it changes nothing |
| `UtcControl.Outstation.WatchdogPass` | ug405/service.py:235-257 | the checks in their order, with two readings of the clock |
| `UtcControl.StepKeepsInv` | ug405/service.py:214-257 | no event takes the mode out of 1 to 3, raises it by more than one, makes the backlog negative, or leaves anything on below mode 3 |
| `UtcControl.RunKeepsInv` | ug405/service.py:214-257 | the same over every run |
| `UtcControl.SafeIff` | ug405/service.py:411-436 | below mode 3 everything is off in every run if and only if every signal that a SET can leave on is owned |
| `UtcControl.WatchdogDropsIff` | ug405/service.py:235-257 | a pass drops the outstation for exactly three reasons: the last SET is longer ago than the timeout, the backlog is above 10, or, after the grace period, the clock has advanced by more than 15 seconds since the last pass or gone back by more than 5; one that does not drop leaves the first two at bay |
| `UtcControl.PassResetsBacklog` | ug405/service.py:242-245 | a pass in a UTC mode resets a backlog above 10, and no pass changes it otherwise |
| `UtcControl.FirstTimeout` | ug405/service.py:235-241 | from the start of the service, after the first SET of mode 2 and without a jump of the clock, the first pass drops if and only if the configured timeout is over |
| `UtcControl.SilenceEndsUtc` | ug405/service.py:235-241 | over every run without SETs of the mode, the first pass after the timeout finds the outstation in standalone or puts it there |
| `UtcControl.TimestampIff` | ug405/service.py:75-86 | a command stamped in whole seconds when it is sent is accepted, at whatever age, if and only if its stamp counts as none, or its age by the stamp, less a day for every midnight since, is from -10 to 30 seconds |
| `UtcControl.FreshTimestampIff` | ug405/service.py:75-86 | up to half a day that is so if and only if midnight does not fall between and it is at most half a minute old by its stamp, or the stamp counts as none |
| `UtcControl.StaleByDays` | ug405/service.py:75-86 | a command a whole number of days old is accepted |
| `UtcControl.JitterFreeIff` | ug405/service.py:248-257 | with a steady clock and no demotion, no run is dropped for jitter if and only if the grace period exceeds the longest gap between passes |
| `UtcControl.DemotionBreaks` | ug405/service.py:421-424 | with demotions allowed, for every grace period some steady run is dropped for jitter |
| `Offline.ResolveTimetable` | offline/service.py:255-285 | the two loops give the specified entry |
| `Offline.ResolvesTo` | offline/service.py:255-285 | that is the first entry with the greatest start not after now today, else the first with the greatest start of yesterday, else none |
| `Offline.PaddedTimesCompare` | offline/service.py:267-269 | comparing four-digit starts as text is comparing them as times |
| `Offline.StartsRightIff` | offline/service.py:267-269 | of the starts of three or four digits, those that come into force at their time of day are the four-digit ones and `000` |
| `Offline.UnpaddedMeans` | offline/service.py:267-269 | a start of three digits comes into force at ten times its number |
| `Offline.UnpaddedInstances` | offline/service.py:267-269 | so `700` is never reached on its own day, and `130` is reached at 13:00 |
| `Offline.CyclePosInRange` | offline/service.py:289-323 | the position in a positive cycle is within it |
| `Offline.DateModeAdvances` | offline/service.py:294-302 | by date, each second advances the cycle by one, before the base date too |
| `Offline.BaseStartsCycle` | offline/service.py:294-315 | by date and by time of day the cycle is at position 0 at its base |
| `Offline.NoCycle` | offline/service.py:294-323 | without a base, or with a cycle of 0, those stay at position 0, while by activation a cycle of 0 is an error |
| `Offline.NegativeCycle` | offline/service.py:320-323 | the position in a cycle of negative length |
| `Offline.TimeModeAdvancesIff` | offline/service.py:307-315 | by time of day it does, across midnight too, and across the base time if and only if the cycle divides the day |
| `Offline.ActivationStartsCycle` | offline/service.py:232-241 | a newly activated plan starts at position 0 of a cycle counted from activation |
| `Offline.ApplyOffset` | offline/service.py:344-369 | the writes of a moment of a plan, field by field |
| `Offline.ZeroScn` | offline/service.py:371-374 | the writes that switch an SCN off |
| `Offline.Player.ApplyOffsets` | offline/service.py:327-342 | the last moment listed whose time has come is applied, unless it was applied last |
| `Offline.Player.StandDown` | offline/service.py:242-251 | an SCN that had a plan is switched off, and has none |
| `Offline.Player.PlayScn` | offline/service.py:226-251 | one SCN's part of a tick, and whether it ends in an error |
| `Offline.Player.PlayTick` | offline/service.py:193-251 | a whole tick with reload, which an error in one SCN cuts short |
| `Offline.RunsInForceIff` | offline/service.py:215-251 | after a tick that comes to its end, reloading or not, an SCN of the plan file runs plan p if and only if the mode is below 3 and one of the file's, p is the plan of the entry in force, that is the first with the greatest start that has come today, or else of yesterday, and p is a plan of the SCN |
| `Offline.MomentIsShown` | offline/service.py:226-369 | when plan p is in force for an SCN and a moment of it has come, after the tick every field that the last such moment sets shows it, bit by bit or as a value |
| `Offline.IdleIsOff` | offline/service.py:242-251 | an SCN that runs no plan has every one of its signals off |
| `Offline.TickScnsGood` | offline/service.py:226-251 | a tick keeps this: an SCN without a plan is off, one with a plan shows the moment applied last |
| `Offline.RunStaysGood` | offline/service.py:193-251 | so over every run without reloads |
| `Offline.AlwaysGood` | offline/service.py:193-251 | and so from the start of the service on |
| `Offline.FailsIff` | offline/service.py:226-251 | a tick ends in an error if and only if some SCN is to run a plan by activation whose cycle is 0 |
| `Offline.InactiveTickZeroes` | offline/service.py:217-251 | after a tick in which no plan is to run, every SCN of the file has no plan and is off |
| `Offline.WrittenOnlyOnChange` | offline/service.py:336-339 | a tick in which an SCN keeps its plan and its moment makes no write to any signal of it |
| `Offline.ScnsLogShows` | offline/service.py:226-251 | a tick lists all its writes: the bus is what they have made of it |
| `Offline.ReloadQuietIff` | offline/service.py:194-205 | a reloading tick leaves an SCN off or driven by a plan if and only if it was off, or a plan starts and no SCN before it has a faulty one |
| `Offline.StuckUntilWanted` | offline/service.py:242-251 | outputs left on that way stay, in every run, until a plan starts |
| `ScnConfig.ParseScns` | web/api/routes/config.py:194-231 | the line loop gives the specified SCNs |
| `ScnConfig.WriteScns` | web/api/routes/config.py:240-276 | the line loops give the specified text |
| `ScnConfig.RoundTripIff` | web/api/routes/config.py:194-276 | whatever the file was, parsing what was written gives the same SCNs back if and only if all are clean |
| `ScnConfig.ParsedIsClean` | web/api/routes/config.py:194-231 | whatever is parsed, from any text, is clean |
| `ScnConfig.WrittenLines` | web/api/routes/config.py:260-276 | the lines of a written file: header, SCNs, LIVE sections, and nothing else of the old file |
| `ScnConfig.SampleTexts` | web/api/routes/config.py:260-271 | the lines of an SCN with and without bits and inversion, letter by letter |
| `ScnConfig.RestSurvives` | web/api/routes/config.py:244-273 | a save keeps the LIVE lines to the letter, and the header but for blank lines at its end |
| `ScnConfig.SavesGrow` | web/api/routes/config.py:260-276 | over any number of saves the LIVE lines stay and the header grows by one blank line a save |
| `SignalTable.Table.Register` | iobus/server.py:49-69 | a registration is rejected exactly for owners not already listed, and then changes nothing |
| `SignalTable.Table.Write` | iobus/server.py:71-94 | a write is accepted exactly from an owner, and notified exactly if it changes the raw value |
| `SignalTable.Table.Read` | iobus/server.py:96-99 | the conditioned value, 0 for unknown signals |
| `SignalTable.ConditionedMeans` | iobus/server.py:110-118 | a value is scaled and cut off towards zero, and inversion makes 1 of 0 and 0 of anything else |
| `SignalTable.OwnersStay` | iobus/server.py:49-94 | owners never change once registered, and only owners' writes count |
| `SignalTable.OwnersDecide` | iobus/server.py:49-94 | over every run, owners are those of the first registration and the value is the last one an owner wrote since |
| `SignalTable.MirrorAgreesIff` | iobus/server.py:71-108 | a subscriber's mirror is right at every point of a run if and only if no registration accepted in it gives its signal a conditioning under which the value of that moment reads differently |
| `SignalTable.Replay` | iobus/driver_sim.py:116-124 | the replay loop writes the events in order |
| `SignalTable.ReplayFaithfulIff` | iobus/driver_sim.py:116-124 | a recording replays as it was if and only if conditioning keeps its values and every event changes its signal |
| `SignalTable.Record` | iobus/driver_recorder.py:61-66 | the notifications that pass the filter are recorded, in order |
| `SignalTable.RecordedAre` | iobus/driver_recorder.py:61-63 | without a filter everything is recorded, with one exactly the notifications of the signals named, as often as they came |
| `SignalTable.RecordingReplays` | iobus/driver_recorder.py:44-68 | a recording of any run, under any filter, replays as it was if the signals it records are unconditioned and start from the same values |
| `SignalTable.InvertedNeverReplays` | iobus/driver_recorder.py:14-16 | no recording with a signal that is inverted and not scaled below one does |
| `SignalTable.InvertedReplaysOnce` | iobus/driver_recorder.py:14-16 | in one that does, an inverted signal occurs at most once, with value 1, and is scaled below one |
| `SignalTable.InvertedReplaysIff` | iobus/driver_recorder.py:14-16 | a recording of one inverted signal does if and only if it is a single change to 1 and the scale is below one |
| `Rpdb.Socket.RecvExact` | iobus/driver_rpdb.py:86-93 | the loop over recv gives the specified outcome, whatever each call returns |
| `Rpdb.Socket.RecvMsg` | iobus/driver_rpdb.py:96-100 | header, length and payload |
| `Rpdb.ReceiveFrame` | iobus/driver_rpdb.py:81-100 | from the start of a message, receiving gives that message and no octet more, or a proper part of it |
| `Rpdb.BuildIs` | iobus/driver_rpdb.py:81-83 | a message of up to 65531 octets is sent as 0, its kind, its length in two octets and its payload; a longer one cannot be |
| `Rpdb.RecvLoop` | iobus/driver_rpdb.py:504-531 | the receive loop goes on after a time-out and ends when the peer closes |
| `Rpdb.MessagesRecovered` | iobus/driver_rpdb.py:81-100 | however a stream of messages is cut, it is received as those messages |
| `Rpdb.InStepIff` | iobus/driver_rpdb.py:513-519 | however a stream is cut and delayed, the messages received are the first of those sent, with no octet missing, if and only if no call of recv times out while part of a message has come |
| `Rpdb.LossIff` | iobus/driver_rpdb.py:513-519 | that is, if and only if no time-out threw octets away |
| `Rpdb.TimeoutForgesMessage` | iobus/driver_rpdb.py:513-519 | an instance: with a time-out inside a message, one is received that nobody sent |
| `Rpdb.Sender.SendRound` | iobus/driver_rpdb.py:568-594 | grouping, bursts and recording have the specified effect on each signal and each element of the controller |
| `Rpdb.Sender.CollectDirty` | iobus/driver_rpdb.py:577-581 | the changed signals by parameter, a later one for an element replacing an earlier one |
| `Rpdb.RoundRecordsIff` | iobus/driver_rpdb.py:577-594 | with one signal per element, after a round an output's record is the value read if and only if it was before, or its parameter's burst was acknowledged; otherwise it is what it was |
| `Rpdb.AcknowledgedRoundShows` | iobus/driver_rpdb.py:577-642 | an output that was in step and whose burst is acknowledged is held by the controller with the value read, except that -1 is never sent first |
| `Rpdb.RecordedIff` | iobus/driver_rpdb.py:586-594 | with one signal per element, a parameter's changed signals are recorded all or none |
| `Rpdb.InSyncIff` | iobus/driver_rpdb.py:586-642 | a round keeps the record in step with the controller if and only if no failed burst was applied to a signal sent before |
| `Rpdb.StaleForGood` | iobus/driver_rpdb.py:577-584 | after such a burst, a signal back at its old value is not sent again and the controller keeps the wrong one |
| `Agd.Service.ProcessZone` | agd/service.py:158-191 | the changed keys of a zone are written and remembered |
| `Agd.Service.ProcessFrame` | agd/service.py:156-208 | a frame, up to a malformed zone |
| `Agd.FrameShows` | agd/service.py:156-191 | after a well-formed frame a zone's signals show its last entry: detection for state 1, and a class if it is detected with a road user of that class |
| `Agd.SignalIff` | agd/service.py:83-89 | which signal stands for a key of a zone: the unit's own, or else the shared one, if not empty |
| `Agd.ZoneChangesIff` | agd/service.py:162-191 | an entry changes something if and only if its zone is one of the unit's and some key differs from what is remembered, or nothing is |
| `Agd.Service.ZeroUnit` | agd/service.py:210-220 | a fault switches the unit's signals off and forgets its zones |
| `Agd.Service.Recompute` | agd/service.py:226-243 | the nested loops recompute every `any` signal from the bus |
| `Agd.FrameKeepsInv` | agd/service.py:156-208 | after every well-formed frame the bus agrees with what is remembered and every `any` signal is the OR over all units and zones |
| `Agd.FaultKeepsInv` | agd/service.py:210-220 | after a fault the unit is off and all else agrees |
| `Agd.RunKeepsInv` | agd/service.py:121-148 | so over every run of frames and faults of all units |
| `Agd.AbortedFrameIff` | agd/service.py:150-152 | a frame cut short leaves the zones agreeing, and an `any` signal right if and only if the OR over what the frame announced before the malformed zone, and over what was remembered elsewhere, is the OR over what was remembered before |
| `Agd.AbortedDetection` | agd/service.py:156-208 | in every configuration with an `any` signal, a first detection followed by a malformed zone is not seen in it |
| `Agd.FrameChangesIff` | agd/service.py:178-191 | a frame recomputes the `any` signals if and only if one of its entries differs from what is remembered |
| `Agd.RepairIff` | agd/service.py:156-208 | a well-formed frame leaves all `any` signals right, however wrong they were, if and only if one of its entries changes something or they were right |
| `KernelIO.DetLatch.Apply` | mova/kernel_io.py:38-44 | one sample of the latch |
| `KernelIO.DetLatch.ReadDetectors` | mova/kernel_io.py:91-93 | the detectors of a tick, in order, missing values as 0 |
| `KernelIO.LatchedIff` | mova/kernel_io.py:27-44 | a detector is reported on if and only if it is, or a rising edge of it is less than 150 ms old, whatever other signals do |
| `KernelIO.TickReports` | mova/kernel_io.py:88-93 | in a tick every detector is reported by its own value, 0 if it has none, and its own latch |
| `KernelIO.Outputs.WriteOutputs` | mova/kernel_io.py:103-127 | only changed outputs are written, and taken as written |
| `KernelIO.TickWrites` | mova/kernel_io.py:108-127 | after a tick every named output is in the cache, and on the bus if it had changed and the write was accepted; nothing else is written |
| `KernelIO.AgreeIff` | mova/kernel_io.py:108-111 | exactly when the cache agrees with the bus after a tick |
| `KernelIO.NotRetried` | mova/kernel_io.py:108-111 | a rejected write is not repeated in any number of ticks while the value stays |
| `Scoot.PackNibbles` | ug405/protocol/scoot.py:115-129 | the octets number half the detectors, rounded up, and unpack to their nibbles and a zero |
| `Scoot.PackedOctets` | ug405/protocol/scoot.py:115-129 | an octet is the nibble of a detector and sixteen times that of the next, 0 for a missing one, and 0 altogether without ticks |
| `Scoot.NibbleMeans` | ug405/protocol/scoot.py:120 | the nibble is the occupancy in fifteenths, rounded down, and 15 for full occupancy only |
| `Scoot.Sampler.Tick` | ug405/protocol/scoot.py:84-113 | what is reported is the occupancy over exactly the ticks since the last report, ten to a second of the interval |
| `Scoot.ReportMeans` | ug405/protocol/scoot.py:84-129 | in a report, each detector's nibble bounds its occupancy over the window |

## Left out

- Sockets, threads, ZeroMQ, WebSocket, the SNMP stack, HTTP routes and logging: their effects are inputs of the steps.
- Interleavings inside a step, such as the watchdog against a control SET; the exception is the RBE send loop, whose two halves are separate steps because it releases its lock between them.
- Back-off delays, range checks of configuration SETs other than the operation mode timeout, and the timer that delays a drop after an IO fault: one-line bounds.
- The MOVA kernel, the web pages and the FLIR, RTIG, autodim and GPIO services: plumbing, or easy members.
- XkopWire.RecvLoop: table writes are assumed to be accepted, and outputs are named by their XKOP index.
- XkopSender.Sender.SendBatches: a transmission sends the whole packet or fails.
- Ber.EncodeInt: negative values are excluded, because for them the loop of the code does not end (`EncodeLoopEndsIff`).
- Ber.BuildInformPacket: the uptime is four given octets; that SNMP would have it in the shortest form is not modelled.
- Rbe.RbeService.Send: retries of one INFORM are one outcome, and an INFORM that arrives does so before the next step. The bus is read at one instant, and it and the uptime are inputs.
- Rbe.HoldoffIff: a keep-alive pass may come at any time, where the code waits five seconds between two. SCOOT INFORMs, which leave the sender's records alone, are not part of it, nor of `RunTracks`.
- RbeReport.BuildVarbinds: bits, fields and SCNs are keys of dictionaries, so none is named twice, and a field has a bit; nothing else is asked of the mapping.
- Rbe.RbeService.Finish: the end of a thread, by an error or by a loop that does not end, is an output; restarting the service is not modelled.
- MaskWrite.SetMask: a bitmask entry without a bit number makes the code fail with a negative shift; bit numbers are at least 1 here.
- UtcControl.LoadControl: takes the control lines as parsed; the line syntax is that of the parser in `scn_config.dfy`.
- Offline.Player.PlayTick: whole seconds; weekdays, the time of day and the parsed base time are inputs; a plan lacking a key is not modelled. The fields of a moment are written in a fixed order, where the code takes the three bitmask fields in the order of a set.
- ScnConfig.ParseScns: upper case and digits are those of ASCII; a carriage return ends a line, but is not turned into a line feed as reading does.
- ScnConfig.RoundTripIff: keys missing from a submitted mapping are taken at the writer's defaults.
- SignalTable.Table.Write: subscribers are one list of notifications that all of them see in order; errors in a subscriber are not modelled.
- SignalTable.Replay: events are taken in the order recorded; sorting by time stamp and waiting are not modelled.
- Rpdb.RecvLoop: what is done with a message, including leaving the loop at a CLOSE, is not modelled.
- Rpdb.Sender.SendRound: the requests of a burst are given by their effect on the controller, not octet by octet.
- Agd.Service.ProcessFrame: unit ids and class names are taken in lower case, and writes as accepted.
- KernelIO.Outputs.WriteOutputs: the outputs of a tick are given as one list, in the order of the code.
- Scoot.PackNibbles: exact arithmetic where the code divides floating-point numbers.

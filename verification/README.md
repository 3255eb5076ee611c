# Verified models of the personal Reticulum tools

This project models the parts of the repository that keep state or walk bytes and promise something
about every input or every run, and proves those promises with Dafny. Each component below has a
specification written apart from the code (a wire format, a published rule, a closed form, a history)
and theorems that tie the code's loops and objects to it.

* **Nordic serial DFU** (`Slip`, `Crc`, `Framing`, `Transfer`, `Session`, `SessionRuns`,
  `SessionAnswers`, `AcknowledgementLine`, `SessionChannel`, `SessionRecovery`, `DfuOperations`): SLIP framing,
  the CRC, the reliable frame encoder, the byte-at-a-time acknowledgement decoder, the transfer plan and the
  stop-and-wait session. `SessionAnswers` tells every answer from the answers before it.
  `SessionRuns` lets a device hear every emission, whatever bytes the session is told in return;
  `SessionChannel` puts the session and a device that acknowledges what it has taken at the ends of a line
  that loses frames and acknowledgements but keeps their order, and hands the session the bytes of the
  acknowledgements in chunks cut anywhere (`AcknowledgementLine`). There a session that completes has had
  exactly the firmware taken, and every run that has not failed and has an attempt left can still be
  completed (`SessionRecovery`). `DfuOperations` is what a device reads out of the payloads, byte by byte.
* **ConfigObj parser** (`Text`, `ConfigValue`, `ConfigNotation`, `ConfigSyntax`, `ConfigTree`,
  `ConfigFlatten`, `ConfigLookup`, `ConfigLayout`, `ConfigDocument`, `ConfigPlacement`, `ConfigAgreement`,
  `ConfigParser`, `ConfigAcceptance`, `ConfigLoop`, `ConfigWriting`, `ConfigReadBack`, `ConfigGrammar`,
  `ConfigLines`, `ConfigRefusals`): one loop builds a nested tree, flat section and key ranges, and a map from
  paths to lines; the three describe one document. A written document parses to that document, every line and
  every value there can be is read as a grammar says, and it is known which texts are refused and for what.
* **Event batches** (`CountedWalk`, `EventBatch`, `EventEncoding`, `EventProjection`, `EventFilter`,
  `EventLaws`, `EventDecoding`, `EventSummary`, `EventFaults`): the validating walk accepts exactly one format
  and refuses everything else for its first fault; filtering commutes with decoding; the summary counts what
  the filters keep.
* **Bounded asynchronous lane** (`Lane`, `LaneRuns`): a producer and one consumer, under every
  interleaving of pushes, calls, finishes and failures.
* **Flash artifacts** (`Uf2`, `Uf2Canonical`, `Uf2Faults`, `EspImage`, `EspLaws`): the one UF2 file an
  application may have and what any other is refused for, and sparse ESP images as disjoint sector ranges.
* **Windows command lines** (`CommandLine`, `CommandLineLaws`): printing against the rules published as
  "Parsing C command-line arguments".
* **Receipt settlement** (`Receipts`): threads that arm, settle and pop receipts, step by step.
* **Runtime entropy** (`Entropy`, `EntropyLaws`, `EntropyStream`): the reseeding schedule in closed form, what
  every run hands out, and exactly when splitting a fill or failing to reseed shows in the bytes.
* **MessagePack values** (`MessagePack`, `MessagePackLaws`) and the **workload generator** (`Workload`).

`Bytes` holds octets, little-endian words and the option and result types, `Sequences` the associativity of
concatenation. `dafny verify dfyconfig.toml` checks everything.

Six promises turned out to hold only under a condition. Each condition is proved exact, beside an input or a
run at which the promise fails:

* a call rejected with a lane's failure is the last word unless the lane was failed with the undefined value
  while it was not finished and somebody waited or had been rejected (`LaneRuns.FailureIsFinalIff`,
  `LaneRuns.UndefinedFailureIsNotFinal`);
* a lane's drops are all reported or pending unless some call finds the queue empty and drops pending and its
  gap function throws (`LaneRuns.DropsBalanceIff`, `LaneRuns.ThrowingGapLosesDrops`);
* a program path survives as the program name unless it holds a quotation mark, or needs quotes and ends in
  a backslash (`CommandLineLaws.LineReadsBackIff`, `CommandLineLaws.TrailingBackslashGrows`,
  `CommandLineLaws.QuotationMarkIsDropped`);
* a quoted configuration value keeps its text only if the text has no surrounding white space
  (`ConfigNotation.QuotingIsExactIffTrimmed`, `ConfigNotation.LeadingBlankIsLost`);
* a random fill may be split in two, whatever the keystreams, exactly where its first part ends on a word of
  the window it ends in, or where the second part is empty (`EntropyStream.FillSplitsIff`,
  `EntropyStream.SplitInsideWordShows`);
* while every attempt to reseed fails, a fill hands out one uninterrupted keystream, whatever the keystreams,
  exactly if it stays within its first window or that window holds whole words
  (`EntropyStream.DeferredStreamContinuesIff`, `EntropyStream.WindowLeftInsideWordShows`).

The last two are about ciphers that read a keystream of four-byte words, one for each seed, and skip what is
left of the last word used. `ChaCha20Rng` is one of them, with the ChaCha20 block function under its seed as the
keystream; which keystream and which key derivation it is makes no difference to the theorems.

## Model

| member | source | states |
|---|---|---|
| `Slip.UnescapeInvertsEscape` | prns-nrf-dfu/src/framing.rs:98-109 | unstuffing gives back every stuffed byte string, so END bytes only delimit |
| `Crc.StepIsDivision` | prns-nrf-dfu/src/crc.rs:13-17 | the shift-and-xor byte step is eight steps of bit-by-bit division by 0x1021 |
| `Crc.FirmwareCrc` | prns-nrf-dfu/src/crc.rs:10-20 | the loop computes CRC-16/CCITT-FALSE by bit-by-bit division |
| `Crc.BurstDetected` | prns-nrf-dfu/src/crc.rs:10-20 | messages of equal length that differ within sixteen consecutive bits, at any bit position, have the same CRC only if they are equal |
| `Crc.SeventeenBitsEscape` | prns-nrf-dfu/src/crc.rs:10-20 | sixteen is the most: a burst of seventeen bits that goes unnoticed |
| `Crc.CheckValue` | prns-nrf-dfu/src/crc.rs:10-20 | the checksum of the nine digits is 0x29b1, the check value of CRC-16/CCITT-FALSE |
| `Framing.ReliableFrameEncoder.Encode` | prns-nrf-dfu/src/framing.rs:69-116 | the n-th encode uses sequence (1+n) mod 8 and expects (2+n) mod 8; a payload over 4095 bytes changes nothing |
| `Framing.FrameIsReceived` | prns-nrf-dfu/src/framing.rs:69-116 | END occurs only first and last, and a receiver recovers sequence, acknowledgement, length, payload and a good CRC for every payload up to 4095 bytes |
| `Framing.DecodesExactlyHeaders` | prns-nrf-dfu/src/framing.rs:227-249 | the accepted frames are exactly the eight valid headers for each acknowledgement number |
| `Framing.RefusesByField` | prns-nrf-dfu/src/framing.rs:227-249 | every other closed frame is refused for the first of length, checksum, packet type, flags and payload that is wrong, with the field it tells |
| `Framing.CutIsExact` | prns-nrf-dfu/src/framing.rs:159-219 | cutting a history at END bytes loses nothing and leaves no END inside |
| `Framing.HeardAdvances` | prns-nrf-dfu/src/framing.rs:159-219 | the view of the whole history can be kept up one byte at a time |
| `Framing.AcknowledgementDecoder.Push` | prns-nrf-dfu/src/framing.rs:159-219 | the decoder reports, for every history and next byte, what the history view prescribes |
| `Framing.ReportsByByte` | prns-nrf-dfu/src/framing.rs:159-219 | what the history view says of the next byte is what its value, the pending escape and the number of bytes held say |
| `Framing.AcknowledgementDecoder.HoldsAtMostAHeader` | prns-nrf-dfu/src/framing.rs:144-219 | at most four decoded bytes are held, and no escape is pending outside a frame |
| `Framing.ReportsExactlyValidFrames` | prns-nrf-dfu/src/framing.rs:159-249 | an acknowledgement is reported exactly when an END closes an open frame that unescapes to a valid header |
| `Framing.TwoEndsResynchronize` | prns-nrf-dfu/src/framing.rs:159-219 | two END bytes lead from every history to a clean frame start |
| `Framing.AcknowledgementHeardAfterNoise` | prns-nrf-dfu/src/framing.rs:159-249 | after any noise and two END bytes a stuffed acknowledgement is heard, and only at its closing END |
| `Transfer.OnlyInitCanOverflow` | prns-nrf-dfu/src/transfer.rs:283-348 | of all planned frames only the init packet can be too long to encode |
| `Transfer.DataFramesCarryFirmware` | prns-nrf-dfu/src/transfer.rs:283-348 | the data frames carry the firmware, in order and without gaps |
| `Transfer.DfuTransfer.NextFrame` | prns-nrf-dfu/src/transfer.rs:235-247 | the pending frame is the planned one and stays the same until acknowledged |
| `Transfer.DfuTransfer.PlanFrame` | prns-nrf-dfu/src/transfer.rs:283-348 | payload, next phase, wait and progress are those of the plan at the current index |
| `Transfer.DfuTransfer.BuildPendingFrame` | prns-nrf-dfu/src/transfer.rs:283-348 | the built frame is the planned one, or encoding refuses it and nothing changes |
| `Transfer.DfuTransfer.Acknowledge` | prns-nrf-dfu/src/transfer.rs:249-271 | the transfer advances on the expected acknowledgement and on nothing else |
| `Transfer.ReliableFrameAttempts.Begin` | prns-nrf-dfu/src/transfer.rs:59-98 | at most three attempts a frame; another sequence number or a fourth attempt changes nothing |
| `Transfer.ReliableFrameAttempts.Accepted` | prns-nrf-dfu/src/transfer.rs:100-116 | only the pending frame can be accepted, which clears the attempts |
| `Session.NrfDfuSession.State` | prns-nrf-dfu-wasm/src/lib.rs:282-293 | the reported state is the one the specification gives the status |
| `Session.NrfDfuSession.BeginNextFrame` | prns-nrf-dfu-wasm/src/lib.rs:295-305 | the call takes the status to the specified next one, with the specified outcome, error cases included |
| `Session.NrfDfuSession.BeginRetry` | prns-nrf-dfu-wasm/src/lib.rs:307-318 | likewise; the decoder starts afresh |
| `Session.NrfDfuSession.BeginPendingAttempt` | prns-nrf-dfu-wasm/src/lib.rs:320-343 | one more attempt of the pending frame, or failing closed |
| `Session.NrfDfuSession.DecodeAcknowledgement` | prns-nrf-dfu-wasm/src/lib.rs:345-382 | bytes are heard up to the first report; bytes after it fail the session |
| `Session.NrfDfuSession.AcceptAcknowledgement` | prns-nrf-dfu-wasm/src/lib.rs:384-433 | the expected acknowledgement advances with wait and progress, any other asks for a retry |
| `SessionRuns.StepIs` | prns-nrf-dfu-wasm/src/lib.rs:282-433 | every call from a sound status stays, sends the planned frame once more, or moves on, and keeps the status sound |
| `SessionRuns.AdvancesExactlyOnExpected` | prns-nrf-dfu-wasm/src/lib.rs:345-433 | the index advances if and only if the pushed bytes end with the expected acknowledgement of a frame in flight |
| `SessionRuns.DuplicateAcknowledgementRetries` | prns-nrf-dfu-wasm/src/lib.rs:384-433 | a duplicate of the previous acknowledgement never advances: it asks for a retry |
| `SessionRuns.EveryRunIsSafe` | prns-nrf-dfu-wasm/src/lib.rs:282-433 | over every run frames go out in order, each emission is byte for byte the planned frame, at most three a frame, at most three times the frame count in all |
| `SessionRuns.TerminalForever` | prns-nrf-dfu-wasm/src/lib.rs:282-433 | a complete or failed session stays so and emits nothing more |
| `SessionAnswers.EveryAnswerFits` | prns-nrf-dfu-wasm/src/lib.rs:282-433 | over every run the next answer follows from the calls and answers so far: which error in which situation, which attempt, which reason for a retry, and when bytes are accepted |
| `SessionRuns.DeviceHearsTheRun` | prns-nrf-dfu-wasm/src/lib.rs:282-433 | a device that hears every emission and takes each expected sequence number once takes exactly the planned payloads, repeats notwithstanding |
| `SessionRuns.CompleteMeansDelivered` | prns-nrf-dfu-wasm/src/lib.rs:282-433 | over a line that loses nothing, a completed session delivered every planned payload once, and the reassembled data is the firmware |
| `AcknowledgementLine.ReplyHeard` | prns-nrf-dfu/src/framing.rs:159-249 | a fresh decoder hears a whole acknowledgement frame at its last byte, with its number |
| `AcknowledgementLine.ChunkIsHeard` | prns-nrf-dfu/src/framing.rs:159-249 | a chunk of an acknowledgement stream, cut anywhere, is quiet or reports an acknowledgement of that stream and is never rejected, also for a decoder that was replaced in the middle of a frame |
| `SessionChannel.ChunkTells` | prns-nrf-dfu-wasm/src/lib.rs:345-433 | however the bytes are cut, the session moves on only at the end of the acknowledgement of its frame, and is otherwise ready to hear the rest |
| `SessionChannel.NextKeepsTouch` | prns-nrf-dfu-wasm/src/lib.rs:282-433 | sending, resending, losing a frame or an acknowledgement, delivering a frame or a chunk keeps session and device within one frame, with only current frames and answers in flight |
| `SessionChannel.EveryRunKeepsTouch` | prns-nrf-dfu-wasm/src/lib.rs:282-433 | over every run of a line that loses frames and acknowledgements in order, the device has taken a prefix of the plan, each payload once, and is at the session's frame or just past it |
| `SessionChannel.CompleteMeansTaken` | prns-nrf-dfu-wasm/src/lib.rs:282-433 | whatever the line loses and however it cuts, a session that completes has had every planned payload taken once and in order, and the data is the firmware |
| `SessionRecovery.EveryRunCanComplete` | prns-nrf-dfu-wasm/src/lib.rs:282-433 | from every run whose session has not failed and has an attempt left, some continuation completes the update |
| `SessionRecovery.SomeRunCompletesIff` | prns-nrf-dfu-wasm/src/lib.rs:282-433 | some run completes if and only if the init packet fits one frame |
| `DfuOperations.PayloadReads` | prns-nrf-dfu/src/transfer.rs:283-348 | a device reads the planned payloads as start in application mode with sizes 0, 0 and the firmware's length, init with the init packet, data, and stop, words at fixed offsets |
| `DfuOperations.CompleteMeansUpdated` | prns-nrf-dfu-wasm/src/lib.rs:282-433 | whatever the line loses and however it cuts, a completed session has had the device take operations that read as one update of this image, and nothing else |
| `DfuOperations.CompleteMeansHeard` | prns-nrf-dfu-wasm/src/lib.rs:282-433 | the same over a line that loses nothing, whatever the session is told |
| `DfuOperations.PlanWaits` | prns-nrf-dfu/src/transfer.rs:283-370 | after start the erase time; after a data frame one page write exactly if the bytes written are whole pages or all of the firmware; after stop the activation time of the layout; else nothing |
| `DfuOperations.AcceptanceTells` | prns-nrf-dfu-wasm/src/lib.rs:384-442 | an accepted frame tells the bytes written and in all, whether it was the last, and the wait in milliseconds rounded up |
| `SessionRuns.WaitsFit` | prns-nrf-dfu-wasm/src/lib.rs:436-442 | no wait exceeds 32-bit milliseconds, so that error never occurs |
| `ConfigValue.ParseValue` | prns-config/src/configobj.rs:527-613 | the scanner loop reads what the recursive reading of the text means |
| `ConfigNotation.WrittenValuesReadBack` | prns-config/src/configobj.rs:527-613 | every non-empty list in quoted or bare comma notation reads back in order: empty quoted items, embedded commas and hashes, trailing comma, padding and comment included |
| `ConfigNotation.QuotingIsExactIffTrimmed` | prns-config/src/configobj.rs:527-613 | quoting keeps a text exactly if and only if it has no surrounding white space |
| `ConfigNotation.LeadingBlankIsLost` | prns-config/src/configobj.rs:527-613 | a quoted text with a leading blank reads back without it |
| `ConfigNotation.TerminatedTripleReads` | prns-config/src/configobj.rs:515-541 | a value without an unterminated triple quote never fails for lack of the closing one |
| `ConfigGrammar.EveryTextIsAValue` | prns-config/src/configobj.rs:527-613 | every text whatever is made of parts between commas and a close: a last part and a comment, quotes never closed, or something that cannot follow a quoted item |
| `ConfigGrammar.ValueExact` | prns-config/src/configobj.rs:515-613 | a value text is read as this value, or refused with this error, if and only if the grammar says so |
| `ConfigSyntax.SourceLines` | prns-config/src/configobj.rs:350-378 | the loop cuts the text into the specified lines |
| `ConfigSyntax.LinesCover` | prns-config/src/configobj.rs:350-378 | the lines cover the whole text in order and are numbered by the line feeds before them |
| `ConfigSyntax.LineTexts` | prns-config/src/configobj.rs:350-378 | the text of every line is the line without its CR LF or LF, or without a CR at the end of the input |
| `ConfigWriting.HeadingRead` | prns-config/src/configobj.rs:488-502 | blanks, brackets, a padded name bare or in quotes, as many closing brackets and perhaps a comment are the header of that name at that depth |
| `ConfigWriting.ValueRead` | prns-config/src/configobj.rs:515-613 | a written value, in a list or between triple quotes over several lines, reads as what it means |
| `ConfigWriting.PairRead` | prns-config/src/configobj.rs:504-513 | a padded key bare or in quotes, an equals sign and a written value are the pair of that key and what the value means |
| `ConfigWriting.EntryRead` | prns-config/src/configobj.rs:389-459 | wherever the lines of a written entry stand they are read as that entry |
| `ConfigLines.HeadingExact` | prns-config/src/configobj.rs:488-502 | a line that starts with brackets is a header of this name and depth, or unmatched, if and only if it is written so |
| `ConfigLines.PairExact` | prns-config/src/configobj.rs:504-513 | a pair is read as this key and value, or refused with this error, if and only if it is written so |
| `ConfigLines.LineExact` | prns-config/src/configobj.rs:389-459 | every line of every text, with the lines it goes on over, is read as it is written and as nothing else |
| `ConfigTree.SectionStack.CloseTo` | prns-config/src/configobj.rs:313-326 | deeper sections are attached to their parents, innermost first |
| `ConfigTree.SectionStack.Finish` | prns-config/src/configobj.rs:328-331 | finishing attaches everything that is still open |
| `ConfigFlatten.FinishingKeepsOrder` | prns-config/src/configobj.rs:290-331 | deferred attachment never changes sections or keys in document order |
| `ConfigFlatten.OpenPathResolves` | prns-config/src/configobj.rs:290-331 | the path of open names leads to the innermost open section of the finished tree |
| `ConfigLookup.SectionListed` | prns-config/src/configobj.rs:33-47 | in a tidy tree a section path resolves if and only if it is in the flattened list |
| `ConfigLookup.KeyListed` | prns-config/src/configobj.rs:33-47 | a key path resolves to a value if and only if that pair is in the flattened list |
| `ConfigLoop.DocumentBuilder.TakeHeader` | prns-config/src/configobj.rs:398-438 | a header takes the builder to the specified state, or reports the specified error |
| `ConfigLoop.DocumentBuilder.TakePair` | prns-config/src/configobj.rs:460-474 | a pair takes the builder to the specified state, or reports a duplicate |
| `ConfigLoop.DocumentBuilder.TakeLine` | prns-config/src/configobj.rs:389-476 | one turn of the loop is the specified turn |
| `ConfigLoop.ParseDocument` | prns-config/src/configobj.rs:380-486 | the whole loop computes exactly the specified document or error |
| `ConfigParser.TurnKeepsSound` | prns-config/src/configobj.rs:389-476 | every turn keeps the tree, the lists, the layout and the line map in agreement |
| `ConfigParser.DocumentAgrees` | prns-config/src/configobj.rs:380-486 | for every text that parses the tree in document order is the flat lists, paths are unique, ranges are laid out, and the map gives each element its line, a section before a key of the same path |
| `ConfigParser.SectionLookupsAgree` | prns-config/src/configobj.rs:202-264 | a section path resolves in the tree if and only if it is in the flat list |
| `ConfigParser.KeyLookupsAgree` | prns-config/src/configobj.rs:216-264 | a key path resolves in the tree if and only if it is in the flat list |
| `ConfigParser.SiblingOrderAgrees` | prns-config/src/configobj.rs:223-238 | the children of every section are listed in the order the tree holds them |
| `ConfigParser.SectionRangesNest` | prns-config/src/configobj.rs:415-438 | section ranges are in bounds, nested exactly when one path continues the other, and otherwise apart |
| `ConfigParser.KeyRangesBelong` | prns-config/src/configobj.rs:440-474 | a key lies inside exactly the sections on its path, after their headers and before its section's children |
| `ConfigParser.JoinedTripleCloses` | prns-config/src/configobj.rs:440-459 | a triple-quoted value the line joining passes on is always terminated |
| `ConfigParser.EverythingIsRecorded` | prns-config/src/configobj.rs:380-486 | the listed sections and keys, with their values, are the headers and pairs of the text, each once and in order |
| `ConfigAcceptance.TurnAcceptedIff` | prns-config/src/configobj.rs:389-476 | a readable line is refused exactly for a skipped depth or a path that is listed already |
| `ConfigAcceptance.ParsesIff` | prns-config/src/configobj.rs:380-486 | a text parses if and only if every line can be read, no header skips a depth, and no section path and no key path occurs twice |
| `ConfigAcceptance.PathsAreListed` | prns-config/src/configobj.rs:380-486 | sections are listed under the paths of the headers of the text and keys under those of its pairs |
| `ConfigReadBack.WrittenParsesIff` | prns-config/src/configobj.rs:380-486 | a written document parses if and only if its headings skip no depth and write no section and no key twice |
| `ConfigReadBack.WrittenReadsBack` | prns-config/src/configobj.rs:380-486 | the tree of a written document holds exactly the sections, keys and values that were written, in order |
| `ConfigReadBack.BreaksAreKept` | prns-config/src/configobj.rs:476-486 | a document uses CR LF exactly if its text has one anywhere |
| `ConfigRefusals.RefusedExactly` | prns-config/src/configobj.rs:380-486 | a text is refused for the first line that cannot be read, skips a depth or repeats a path, with line, depth and name, and parses if there is none |
| `ConfigRefusals.WrittenRefused` | prns-config/src/configobj.rs:398-474 | a written document is refused for its first entry that skips a depth or repeats a path, by kind, line and name |
| `ConfigRefusals.UnreadableRefused` | prns-config/src/configobj.rs:389-459 | behind a written document with no fault of its own, the first line that cannot be read is what the text is refused for |
| `EventBatch.CheckField` | prns-js/src/event_projection.ts:217-251 | the field checks, in the source's order, give the specified field or failure |
| `EventBatch.VisitBatch` | prns-js/src/event_projection.ts:161-269 | the two nested loops compute the specified walk, failures and offsets included |
| `EventEncoding.VisitExact` | prns-js/src/event_projection.ts:161-269 | for every visitor and accepted set the walk succeeds with a result if and only if the bytes encode valid records and the visitor makes that result of them |
| `EventEncoding.VisitEncoded` | prns-js/src/event_projection.ts:161-269 | on an encoded batch every accepted record is visited once and in order |
| `EventEncoding.VisitedIsEncoded` | prns-js/src/event_projection.ts:161-269 | a walk that succeeds walked an encoded batch |
| `EventFaults.RefusedExactly` | prns-js/src/event_projection.ts:161-269 | for every visitor a batch is refused with this code and offset if and only if that is the first thing wrong with it, behind records and fields that are encoded as they should be and taken by the visitor |
| `EventProjection.DecodeBatch` | prns-js/src/event_projection.ts:58-73 | decoding is the walk with the decoding visitor |
| `EventDecoding.DecodeExact` | prns-js/src/event_projection.ts:58-73 | a batch decodes to these events if and only if it encodes records that denote them: octets, the text the bytes decode to, and little-endian numbers of 8 and 16 bytes |
| `EventDecoding.DecodeValueIff` | prns-js/src/event_projection.ts:309-345 | a field decodes to a value if and only if it denotes it by its wire type, and otherwise the failure tells what that type asked for |
| `EventDecoding.EventsReadBack` | prns-js/src/event_projection.ts:58-73 | every list of events written down decodes to that list |
| `EventDecoding.NumbersAreLittleEndian` | prns-js/src/event_projection.ts:327-339 | both number widths decode to the little-endian value of all their bytes |
| `EventDecoding.RetainCommutesWithDecode` | prns-js/src/event_projection.ts:58-148 | decoding the filtered batch, filtering the decoded events and decoding with accepted kinds agree on every batch that decodes |
| `EventLaws.RetainBatch` | prns-js/src/event_projection.ts:121-148 | the filter with its checked total and buffer copies computes the specified bytes |
| `EventLaws.RetainEncoded` | prns-js/src/event_projection.ts:121-148 | filtering encoded records encodes the filtered records |
| `EventLaws.RetainComposes` | prns-js/src/event_projection.ts:121-148 | filtering twice keeps the common kinds, so filtering again changes nothing |
| `EventSummary.SummarizeEncoded` | prns-js/src/event_projection.ts:75-107 | the summary never overflows: with every kind known it is the counts and retained bytes of the records, and otherwise it fails at the kind of the first unknown record |
| `EventSummary.RetainedAre` | prns-js/src/event_projection.ts:277-296 | the retained fields are the eleven listed pairs of kind and field |
| `EventSummary.TotalsAreChecked` | prns-js/src/event_projection.ts:298-307 | a total past the largest exact integer is refused at the field that would bring it there, and nothing else is |
| `EventSummary.SummaryMatchesRetained` | prns-js/src/event_projection.ts:75-148 | the two halves hold as many records as counted, all retained bytes are in the first, and their lengths add up to the batch and one header |
| `Lane.BoundedAsyncLane.PushValue` | prns-js/src/async_lanes.ts:46-71 | a push is delivered, queued, dropped or rejected as the specification says |
| `Lane.BoundedAsyncLane.FinishLane` | prns-js/src/async_lanes.ts:73-80 | finishing closes the lane and ends a parked call |
| `Lane.BoundedAsyncLane.FailLane` | prns-js/src/async_lanes.ts:82-89 | failing records the error and rejects a parked call |
| `Lane.BoundedAsyncLane.TakeNext` | prns-js/src/async_lanes.ts:112-136 | a call takes the queue's head, a gap marker, the failure, the end, or parks; the hook or the gap function may throw, the latter after the count is cleared |
| `LaneRuns.EveryRunKeepsInvariant` | prns-js/src/async_lanes.ts:46-136 | over every interleaving: handed values then queue are the accepted pushes in order, bytes are the queued sum within both limits, drops are reported, pending or lost with a throw, a parked call means an empty open lane, calls settle in order, one iterator |
| `LaneRuns.RefusalsAreForced` | prns-js/src/async_lanes.ts:46-71 | over every run a push to an open lane nobody waits on is queued unless the queue holds as many values as allowed or would grow heavier than allowed; it is then a counted drop exactly if there is a gap function, and otherwise rejected with its measure |
| `LaneRuns.DropsBalanceIff` | prns-js/src/async_lanes.ts:57-126 | drops equal reported gap counts plus the pending count if and only if no call of the run whose hook returns finds an empty queue, pending drops and a gap function that throws |
| `LaneRuns.ThrowingGapLosesDrops` | prns-js/src/async_lanes.ts:119-126 | a run in which a drop is neither pending nor ever reported |
| `LaneRuns.RejectionsAreFinal` | prns-js/src/async_lanes.ts:82-136 | without undefined failures, whenever a call is rejected by the failure everything accepted then or later was handed over and every drop settled before it, however the run goes on |
| `LaneRuns.DoneIsFinal` | prns-js/src/async_lanes.ts:73-136 | in every run, whenever a call settles with the end everything ever accepted was handed over and every drop settled before it |
| `LaneRuns.FailureIsFinalIff` | prns-js/src/async_lanes.ts:82-89 | failing keeps rejections final in every continuation if and only if the error is defined, or the lane is finished, or nobody waits and no call was rejected yet |
| `LaneRuns.UndefinedFailureIsNotFinal` | prns-js/src/async_lanes.ts:82-89 | a run in which a call is rejected with the undefined value and a later push is accepted and queued |
| `LaneRuns.LaneDrains` | prns-js/src/async_lanes.ts:112-136 | whatever hooks and gap functions throw, calls on a lane, open or closed, settle as its queue in order, one marker or throw for the drops and, if it is closed, the same ending for all the rest; a throwing hook only puts its call off |
| `LaneRuns.EmptyLaneParks` | prns-js/src/async_lanes.ts:112-136 | on an open lane a call whose hook returns parks and changes nothing else if and only if nothing is queued and no drop is pending |
| `Uf2.ValidateUf2Bytes` | prns-flash-manifest/src/uf2.rs:290-342 | the loop reports the first failing check of the first failing block |
| `Uf2.ValidateRecoveryApplication` | prns-flash-manifest/src/uf2.rs:263-288 | the loop reports the first block that does not carry its piece of the application |
| `Uf2Canonical.BlockExact` | prns-flash-manifest/src/uf2.rs:300-339 | the checks on a block pass if and only if it is the canonical block and in bounds |
| `Uf2Canonical.AcceptedIffCanonical` | prns-flash-manifest/src/uf2.rs:254-342 | a recovery file is accepted if and only if the application is not empty, its padded span fits both ranges, and the file is byte for byte the canonical encoding |
| `Uf2Faults.BlockBlamed` | prns-flash-manifest/src/uf2.rs:300-339 | a block is refused exactly for the first word in the order of the checks that is not the one asked for, or else for its bounds, its owner or its padding |
| `Uf2Faults.RefusedExactly` | prns-flash-manifest/src/uf2.rs:254-342 | an artifact is refused with this fault if and only if it is that of its length, of its first wrong block, of the number of blocks, or of the first block without its piece, in this order |
| `EspImage.ValidateImage` | prns-flash-manifest/src/esp.rs:69-98 | the loop over the parts gives the specified ranges or the first fault |
| `EspLaws.NeighboursDecide` | prns-flash-manifest/src/esp.rs:170-189 | checking predecessor and successor accepts a range if and only if it is apart from every placed one |
| `EspLaws.InsertAdds` | prns-flash-manifest/src/esp.rs:190-191 | an accepted range is added and replaces nothing |
| `EspLaws.PlacementIff` | prns-flash-manifest/src/esp.rs:130-169 | a part is placed at a range if and only if it has a sector-aligned offset that starts the region of its kind, the range ends at the least sector at or above its last byte, below 2^32, in flash and in the region, and the range is apart from the provisioning slot |
| `EspLaws.AcceptedExactly` | prns-flash-manifest/src/esp.rs:69-192 | an image is accepted if and only if the kinds are in order, every part is well formed and has such a range, and paths differ and ranges are apart two by two; the map then holds exactly the ranges |
| `EspLaws.FaultsAreReal` | prns-flash-manifest/src/esp.rs:69-192 | a refusal blames the first part that is at fault, for something that is true of it, with the numbers and paths it tells |
| `CommandLine.AppendArgument` | prns-ffi/src/detached_spawn.rs:176-205 | the backslash-counting loop appends the specified rendering |
| `CommandLine.BuildCommandLine` | prns-ffi/src/detached_spawn.rs:165-174 | the line is the rendered program, the rendered arguments after spaces, and a NUL |
| `CommandLineLaws.ArgumentsReadBack` | prns-ffi/src/detached_spawn.rs:165-205 | the published rules read back every argument list, empty arguments, quotes and trailing backslashes included |
| `CommandLineLaws.PassedAsIsIff` | prns-ffi/src/detached_spawn.rs:176-205 | an argument is printed as it is if and only if it is not empty and holds no tab, space or quotation mark |
| `CommandLineLaws.PrintedExample` | prns-ffi/src/detached_spawn.rs:165-205 | a path with a blank and a backslash at its end and a backslash before a mark, printed code unit by code unit |
| `CommandLineLaws.LineReadsBackIff` | prns-ffi/src/detached_spawn.rs:165-205 | the whole line reads back as program and arguments if and only if the program name survives its simpler rules |
| `CommandLineLaws.TrailingBackslashGrows` | prns-ffi/src/detached_spawn.rs:176-205 | a path with a blank that ends in a backslash reads back with one backslash more |
| `CommandLineLaws.QuotationMarkIsDropped` | prns-ffi/src/detached_spawn.rs:176-205 | a path with a quotation mark reads back without it |
| `Receipts.StepKeepsInvariant` | benchmarks/reference/receipt_settlement.py:16-60 | any step of any thread keeps the accounting of gates, appends, order and wake-ups |
| `Receipts.QueuedAtMostOnce` | benchmarks/reference/receipt_settlement.py:16-51 | under every interleaving no receipt is queued or popped twice |
| `Receipts.SettledIsQueuedOnce` | benchmarks/reference/receipt_settlement.py:37-51 | once its threads are through, a receipt was queued exactly once if it settled (or there was none), and never otherwise |
| `Receipts.PoppedInQueueOrder` | benchmarks/reference/receipt_settlement.py:48-60 | entries are popped in the order they were queued |
| `Receipts.NoEntryIsSleptThrough` | benchmarks/reference/receipt_settlement.py:48-60 | no consumer sleeps on an entry unless another is awake and about to look |
| `Receipts.QueuedOnlyWhenArmed` | benchmarks/reference/receipt_settlement.py:37-51 | under every interleaving a receipt is queued only after it settled and a callback for it was installed |
| `Receipts.ConsumersAreConserved` | benchmarks/reference/receipt_settlement.py:48-60 | over every run the consumers that wait are those that went to wait and have neither taken an entry nor given up |
| `Receipts.AppendingWakesOne` | benchmarks/reference/receipt_settlement.py:48-51 | queueing an entry wakes one sleeping consumer, if there is one, and no more |
| `Entropy.TryNew` | prns-core/src/entropy.rs:68-78 | a stream exists only if the source supplies its first seed |
| `Entropy.RuntimeEntropy.TryReseed` | prns-core/src/entropy.rs:99-114 | an attempt reseeds from fresh and continuing bytes, or only defers |
| `Entropy.RuntimeEntropy.FillRandom` | prns-core/src/entropy.rs:80-97 | the loop fills the buffer with the specified chunks and leaves the specified state |
| `EntropyLaws.FillSchedule` | prns-core/src/entropy.rs:80-97 | attempts, budget and health after a fill, in closed form |
| `EntropyLaws.SplitSchedule` | prns-core/src/entropy.rs:80-97 | splitting a fill leaves calls, budget and health the same |
| `EntropyLaws.EveryRunIsWindowed` | prns-core/src/entropy.rs:68-142 | over every run at most 65536 bytes leave between attempts, and health is deferred exactly when the latest attempt failed |
| `EntropyLaws.EveryRunReplays` | prns-core/src/entropy.rs:68-142 | over every run the cipher is what its seeds, its successful attempts and the chunks since have made of it, and the bytes handed out are chunk by chunk its output at the time |
| `EntropyLaws.FailuresLeaveNoTrace` | prns-core/src/entropy.rs:80-142 | over every run the cipher and every byte handed out are those of the history with the failed attempts struck out |
| `EntropyLaws.EveryAttemptAsksOnce` | prns-core/src/entropy.rs:68-142 | over every run each attempt takes the next answer of the source in place, none skipped and none used twice, and a source put in place later is asked from its first answer on |
| `EntropyStream.FillSplits` | prns-core/src/entropy.rs:80-97 | for a cipher that splits at words, splitting a fill where the first part ends on a word, or the second is empty, changes neither bytes nor stream |
| `EntropyStream.WordCipherSplitsAtWords` | prns-core/src/entropy.rs:57-58 | every cipher that reads a keystream of words for its seed, and drops what is left of the last word, splits at words |
| `EntropyStream.SplitInsideWordShows` | prns-core/src/entropy.rs:80-97 | every split off a word with a second part that is not empty changes the bytes, for the keystream that counts through its words |
| `EntropyStream.FillSplitsIff` | prns-core/src/entropy.rs:80-97 | a fill can be split for all keystreams if and only if the first part ends on a word or the second is empty |
| `EntropyStream.DeferredStreamContinues` | prns-core/src/entropy.rs:80-97 | while attempts fail the bytes and the cipher are those of one uninterrupted stream, if the first window is not left or holds whole words |
| `EntropyStream.WindowLeftInsideWordShows` | prns-core/src/entropy.rs:80-97 | a fill that leaves a window off a word does not continue the counting keystream |
| `EntropyStream.DeferredStreamContinuesIff` | prns-core/src/entropy.rs:80-97 | when all attempts fail, the bytes are those of one uninterrupted keystream for all keystreams if and only if the first window is not left or holds whole words |
| `MessagePack.WriteString` | prns-core/src/rncp.rs:75-92 | the writer leaves the buffer and cursor its puts prescribe, partial writes included |
| `MessagePack.WriteFileMetadata` | prns-core/src/rncp.rs:57-62 | likewise, for the prefix and the binary name |
| `MessagePackLaws.StringRoundTrip` | prns-core/src/rncp.rs:75-135 | every string of 32-bit length reads back under any suffix, with its own end |
| `MessagePackLaws.BinaryRoundTrip` | prns-core/src/rncp.rs:94-157 | likewise for binaries |
| `MessagePackLaws.ParseStringExact` | prns-core/src/rncp.rs:114-135 | the parser accepts exactly a known header and as many bytes as it announces, and calls everything else malformed |
| `MessagePackLaws.ParseBinaryExact` | prns-core/src/rncp.rs:137-157 | likewise for binaries |
| `MessagePackLaws.WriteStringExact` | prns-core/src/rncp.rs:75-92 | writing fails exactly when the value is too long or the buffer shorter than the encoding |
| `MessagePackLaws.WriteMetadataExact` | prns-core/src/rncp.rs:57-62 | metadata is written whole, or refused exactly when the buffer is too short or the name too long to announce, the prefix being tried first |
| `MessagePackLaws.FetchPathRoundTrip` | prns-core/src/rncp.rs:21-31 | a written fetch path parses to the same text |
| `MessagePackLaws.FetchPathExact` | prns-core/src/rncp.rs:21-31 | a fetch path is one whole string and nothing else, of which only the decoding of its text may be refused |
| `MessagePackLaws.MetadataExact` | prns-core/src/rncp.rs:64-73 | metadata parses exactly when it is a map of `name` to one whole binary, and everything else is malformed |
| `MessagePackLaws.MetadataRoundTrip` | prns-core/src/rncp.rs:57-73 | every written file name parses back |
| `MessagePackLaws.UnwrapAgrees` | prns-napi/src/marshal.rs:62-75 | the unwrapper succeeds exactly when the binary parser consumes the whole input, with the same value |
| `Workload.PythonStepsAgree` | benchmarks/reference/workload_vectors.py:27-45 | both of Python's masked steps are Rust's wrapping step |
| `Workload.PythonShiftsAreArithmetic` | benchmarks/reference/workload_vectors.py:29-31 | shifts and mask are multiplication, division and remainder by powers of two on the integers the bits denote |
| `Workload.RustShiftsAreArithmetic` | benchmarks/src/catalog.rs:554-556 | Rust's shifts are the same, wrapping at 64 bits |
| `Workload.StepPermutes` | benchmarks/src/catalog.rs:552-559 | a step has a two-sided inverse on 64-bit words |
| `Workload.SameStatesForever` | benchmarks/src/catalog.rs:552-559 | the two generators walk through the same states for ever |
| `Workload.NeverMeetNeverZero` | benchmarks/src/catalog.rs:552-559 | different seeds never meet and a nonzero seed never reaches zero |
| `Workload.SizeSequence.NextIn` | benchmarks/src/catalog.rs:552-559 | the state steps and the size lies between the bounds |
| `Workload.SizesAgreeForever` | benchmarks/reference/workload_vectors.py:16-33 | every size is the same in both languages and lies between the bounds |
| `Workload.DeterministicPayload` | benchmarks/src/catalog.rs:562-573 | the Rust loop computes the specified payload |
| `Workload.PythonPayload` | benchmarks/reference/workload_vectors.py:36-45 | the Python loop computes the same payload |
| `Workload.PayloadNeverStalls` | benchmarks/src/catalog.rs:562-573 | the payload's seed is the number it is written as, and no state of the payload is zero |
| `Workload.PayloadsAreNested` | benchmarks/src/catalog.rs:562-573 | a shorter payload begins a longer one |

## Left out

- The Reticulum engine, routing, links, resources and channels: a separate system of its own.
- `SessionChannel.CompleteMeansTaken`: the line loses whole frames, and whole acknowledgements of which nothing has arrived; single bytes that are lost or changed inside an acknowledgement are not modelled, because its eight-bit checksum cannot rule out that they forge another.
- `SessionRuns.CompleteMeansDelivered`: the device hears every emission; what the session is told in return may be any bytes.
- Frames reach the device whole, and its acknowledgements carry sequence number zero.
- Building and checking of init packets (`prns-nrf-dfu/src/image.rs`): an image is its firmware and an init packet of any bytes.
- The session errors for a wait out of range and for an acknowledgement that did not advance: the first is proved impossible, the second cannot arise once the acknowledgement is accepted.
- Source positions in configuration texts count characters, where the parser counts UTF-8 bytes.
- White space in configuration texts: the characters Rust calls white space are given by a predicate over the listed code points.
- The last branch of `source_lines`, for text after the final line, is never reached because `split_inclusive` covers the whole text.
- Editing a configuration document in place.
- `EventProjection.DecodeBatch`: the text decoder is an uninterpreted partial function, and the visitor receives each value's bytes with their offset instead of a view and two offsets.
- `Lane.BoundedAsyncLane.PushValue`: the callbacks of the lane are not run by the model; a callback that pushes, finishes or fails is covered as a step taken before or after, and the measure function is assumed to return.
- Where a gap marker falls among other diagnostics: only the counts are exact.
- `EspImage.ValidateImage`: resolving the memory profile, and the syntax of artifact paths and digests, are parameters.
- `INFO_UF2.TXT` identity parsing, manifests and catalog matching.
- `CommandLine.BuildCommandLine`: the environment block and the process-creation calls.
- `Receipts.StepKeepsInvariant`: clocks are reduced to a flag that says whether a deadline has passed when a consumer looks.
- `Entropy.RuntimeEntropy.FillRandom`: the stream cipher, HKDF and zeroing of secrets are uninterpreted; the laws about bytes are about ciphers that hand out whole words of a keystream, and the end of a keystream is not modelled.
- `MessagePack.WriteString`: sizes are 64-bit, so no length or cursor addition overflows; UTF-8 validity is an uninterpreted partial function.
- Fetch replies, four fixed byte strings.
- `Workload.SizeSequence.NextIn`: bounds with the minimum above the maximum, or whose span exceeds 64 bits, where the Rust arithmetic overflows.
- `repeated_payload`, a repeated block cut to length.

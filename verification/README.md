# ProtoPoke in Dafny

ProtoPoke is an intercepting proxy with a binary-analysis toolkit. This project models its hardest
parts and proves what they promise:

- **Alignment** (`Alignment`, `AlignmentCounts`, `ProgressiveMerge`, `MergeDetermined`, `Runs`): the
  Needleman-Wunsch table and traceback, what its scores mean in numbers of matches, mismatches and gaps, the
  progressive merge of many frames into one table and why there is only one such table, the consensus line and
  the variable regions.
- **Byte structure** (`Ngrams`, `NgramReport`, `Tlv`, `Diff`): n-gram mining with suppression, ranking and samples,
  the TLV chain walk, the coalescing diff.
- **Interception** (`Tamper`, `Relay`, `RelayRuns`, `EndToEnd`, `Lifecycle`, `LifecycleRuns`): the hold-and-decide
  controller as an object with futures, a step system in which any number of relay directions, an operator and
  cancellations interleave at every await, what each run writes and why it can always end, what follows for whole
  streams with the real framers, and a second step system for the life of one session.
- **Framing** (`Framing`, `LengthPrefix`, `Delimiter`): the two stateful framers and the exact condition
  under which the way TCP splits a stream cannot be seen.
- **DNS rewriting** (`Dns`, `DnsWire`, `DnsStrict`): the example script that rewrites a message in the buffer it
  is parsing, what it does told in bytes, and a parser that keeps to the standard (sections 4.1.1 to 4.1.4 of
  RFC 1035).
- **Patterns** (`PatternTokens`, `PatternText`, `PatternRegex`, `PatternForms`, `PatternReads`): the hex pattern
  tokeniser, its printer, the relation of tokens to pattern text, the compiler to regular-expression text against a
  grammar and a meaning for that text, and what each written form matches.
- **Definitions** (`PyNumbers`, `NumberForms`, `Values`, `Definition`, `DefinitionLoader`, `DefinitionPrinter`,
  `DefinitionRoundTrip`, `DefinitionNotation`, `DefinitionMeaning`, `DefinitionReads`): the protocol-definition
  loader and serializer, and what a definition says in each notation, told without the loader.
- **Forge connections** (`Forge`, `ForgeEnds`): reader, sends and operator racing on persistent connections.
- **SOCKS5** (`Socks5`, `SocksOutcomes`): the handshake (sections 3 to 6 of RFC 1928, section 2 of RFC 1929).

`Bytes`, `Options` and `Text` hold shared vocabulary. Code that works step by step in the source is a method or a
class here, proved equal to a function or against a predicate; what the source promises is then proved
of that function or predicate. The concurrent parts are step systems: one step is one stretch of code
between two awaits, and the theorems speak of every state some run reaches.

`dafny verify dfyconfig.toml` checks everything. Every lemma with parameters carries
`{:induction false}`: the proofs are the ones written, and no induction is inferred.

## What turned out not to hold as documented

- Length-prefix framing hides the chunking of a stream exactly when a corrupt or oversize header, if
  there is one, is met with no byte after it (`LengthPrefix.ChunkingInvisibleIff`); delimiter framing
  exactly when no undelimited rest outgrows the limit before the last byte
  (`Delimiter.ChunkingInvisibleIff`). `LengthPrefix.CorruptHeaderShows` and `Delimiter.LongLineShows` give a
  stream and a split that fail. Conservation holds without any condition.
- A pattern class with no hex pair compiles to `[]`, whose `]` is a member of the class, so it takes in the
  next token (`PatternRegex.EmptyClassCapturesNeighbour`). A brace
  that holds no count, as in `.{zz}`, is passed on and read as text after a lone wildcard
  (`PatternRegex.MalformedBraceIsText`). Meaning is kept exactly when every brace holds a count, no class is
  empty, no range or count runs backwards, and every count is below 4294967295
  (`PatternRegex.CompiledMeansTokens`).
- The module comment of `rules/rule.py` says that `\xNN` is passed through as it is. The code reads the
  number and escapes the byte; the model does what the code does.
- The serializer is documented as lossless. It is, exactly when every magic value is made of bytes and
  no enum or tag key is a truth value; otherwise the loader refuses what was printed
  (`DefinitionRoundTrip.RoundTrip`). A bare magic number is not range-checked on loading
  (`DefinitionRoundTrip.BareMagicFails`), and YAML's `true` is an integer to Python but prints as `True`
  (`DefinitionRoundTrip.FlagKeyFails`).
- The DNS script promises to return a malformed message untouched. Label bytes 64 to 191 are reserved by
  section 4.1.4 of RFC 1035, and the script takes them for lengths. It does what a parser that refuses them
  prescribes exactly when that parser accepts the message or no address record holds anything but 127.0.0.1
  (`DnsStrict.StrictIff`); `DnsStrict.ReservedLengthIsRewritten` is a message on which it does not.
- A verdict call that returns true is promised to have resolved its unit. It decides a frame, or still will,
  unless a cancellation reaches the relay that waits (`Relay.VerdictTakesEffect`); between the verdict and the
  relay's resuming, a cancellation always loses it (`Relay.VerdictCanBeLost`).
- A closed forge connection is silent only if it has a reader task to cancel; a datagram transport may still
  report errors (`Forge.ReaderSilentAfterClose`, `Forge.LateErrorArrives`).

## Model

| member | source | states |
|---|---|---|
| Alignment.NeedlemanWunsch | protopoke/analysis.py:1095-1140 | The two rows have equal length, degap to the inputs, and no alignment of the inputs scores higher, for all integer scores |
| Alignment.AlignIsOptimal | protopoke/analysis.py:1095-1140 | The traced alignment is one, scores exactly the last table entry, and is at least as good as every other alignment |
| Alignment.TableIsUpperBound | protopoke/analysis.py:1109-1120 | No alignment of two prefixes scores above their table entry |
| Alignment.TraceAligns | protopoke/analysis.py:1121-1140 | From any cell the walk back spells an alignment of the two prefixes that scores that cell |
| Alignment.FillTable | protopoke/analysis.py:1109-1120 | The in-place table holds the best score at every cell |
| Alignment.TraceBack | protopoke/analysis.py:1121-1140 | The loop ends and appends the alignment's columns in reverse order |
| Alignment.NoCrossedGaps | protopoke/analysis.py:1095-1140 | When a substitution beats two gaps, as under the default scores, no gap of one row is next to a gap of the other |
| Alignment.SelfAlignmentHasNoGaps | protopoke/analysis.py:1095-1140 | Under the default scores a string aligned with itself has no gaps |
| AlignmentCounts.ScoreCounts | protopoke/analysis.py:1095-1120 | Any alignment scores so much for each of its matches, mismatches and gaps |
| AlignmentCounts.DefaultIsBestByCount | protopoke/analysis.py:1095-1101 | Under the default scores no alignment of the two strings has a larger number of matches less mismatches less twice the gaps |
| AlignmentCounts.SubstitutionsOnly | protopoke/analysis.py:1095-1140 | Under the default scores strings of one length that differ in one or two places are aligned place by place |
| AlignmentCounts.AlignIsPreferred | protopoke/analysis.py:1121-1140 | Of all alignments of the highest score the one returned is, read from the end, the one that pairs bytes rather than put a gap below, and puts a gap below rather than above |
| AlignmentCounts.AlignIsDetermined | protopoke/analysis.py:1095-1140 | The highest score and that preference determine the alignment |
| ProgressiveMerge.AlignAndMerge | protopoke/analysis.py:1186-1247 | The merge loops over rows, anchor and positions build exactly the merged columns, and the new anchor is row 0 |
| ProgressiveMerge.MergeColumns | protopoke/analysis.py:1200-1243 | The walk over aligned pairs with its pending gap columns and its tail equals the merge of table and alignment |
| ProgressiveMerge.OldRowsKept | protopoke/analysis.py:1186-1247 | Merging keeps every old row's bytes and its alignment with the anchor |
| ProgressiveMerge.NewRowAligned | protopoke/analysis.py:1186-1247 | The new row holds the new bytes, and beside the anchor reads as their pairwise alignment |
| ProgressiveMerge.MergeIsTable | protopoke/analysis.py:1186-1258 | No column becomes all gaps, so the all-gap branch of the consensus is never taken |
| ProgressiveMerge.MergeExtends | protopoke/analysis.py:1200-1243 | Without the inserted columns the old table is still there, in order |
| ProgressiveMerge.MergeStaysFaithful | protopoke/analysis.py:1171-1247 | One more merge keeps the whole table faithful to all pairwise alignments with the anchor |
| ProgressiveMerge.FaithfulIsBest | protopoke/analysis.py:1171-1247 | In a faithful table every row is, beside the anchor, an alignment that no other beats in matches less mismatches less twice the gaps |
| MergeDetermined.MergeIsMerge | protopoke/analysis.py:1186-1247 | The merge holds the old table and the pairwise alignment, with inserted columns before the anchor byte they precede |
| MergeDetermined.MergeIsUnique | protopoke/analysis.py:1186-1247 | Only one table holds the old table and the pairwise alignment in that way |
| MergeDetermined.StackIsUnique | protopoke/analysis.py:1171-1247 | The trimmed frames alone determine the whole table |
| ProgressiveMerge.AlignRows | protopoke/analysis.py:1171-1247 | However many frames follow, each row degaps to its trimmed frame and, beside the anchor, is the pairwise optimum, which is also stated in numbers of matches, mismatches and gaps; the table is the one the frames determine |
| ProgressiveMerge.AlignFrames | protopoke/analysis.py:1143-1310 | For all limits, negative ones included: rows, consensus and kinds describe every column of the one table the trimmed frames determine, in which each row beside the anchor is best in matches less mismatches less twice the gaps, and the regions are the maximal runs of one kind; no frames give an empty report, and frames of which the limit selects none the index error |
| Runs.RunsAreUnique | protopoke/analysis.py:1271-1295 | A marking has only one list of ascending maximal runs that cover the marked positions |
| Runs.Coalesce | protopoke/analysis.py:1271-1295 | The run loop returns that list |
| Ngrams.CountGrams | protopoke/analysis.py:1024-1037 | Each counted n-gram's set is exactly the ids of the frames that contain it |
| Ngrams.CountIsFrames | protopoke/analysis.py:1024-1043 | With distinct frame ids the size of that set is the number of frames that hold the gram |
| Ngrams.Suppress | protopoke/analysis.py:1050-1060 | The four nested loops suppress a gram exactly when a group before its own has a longer hit around it with the same count |
| Ngrams.SuppressedIsExplained | protopoke/analysis.py:1045-1060 | With groups in descending length, a hit is suppressed if and only if some longer hit with the same count contains it |
| Ngrams.SurvivorFor | protopoke/analysis.py:1045-1060 | Every hit lies inside a survivor with the same count |
| Ngrams.Survivors | protopoke/analysis.py:1022-1060 | Every gram at the threshold survives or lies inside a survivor with the same count, and no survivor lies inside a longer gram with the same count |
| NgramReport.FindConstantByteSequences | protopoke/analysis.py:996-1092 | What is reported is the capped start of the one ranked list of survivors at the threshold for the given share, longer ones first, then more frequent ones, then by their first differing byte, each with its count, its first four offsets in the first three frames that hold it, overlapping ones included |
| NgramReport.ThresholdIsShare | protopoke/analysis.py:1022 | A count reaches the threshold if and only if it is positive and reaches the given share of the frames |
| NgramReport.ReportIsDetermined | protopoke/analysis.py:1039-1062 | The ranked survivors follow from the frames alone: no order of traversal of sets or tables shows |
| NgramReport.SortedIsRanked | protopoke/analysis.py:1061 | Sorting leaves the same hits in strict order of length, count and bytes |
| NgramReport.BeforeMeans | protopoke/analysis.py:1061 | One hit comes before another if it is longer, or as long and more frequent, or equal in both and smaller at the first byte where they differ |
| NgramReport.RankedIsUnique | protopoke/analysis.py:1061 | Given hits can be ranked in one way only |
| NgramReport.SampleFrames | protopoke/analysis.py:1066-1083 | The loop stops at the third frame that holds the gram and lists exactly the first three, each by its first offsets |
| NgramReport.SampleOffsets | protopoke/analysis.py:1070-1079 | The loop returns the ascending first four occurrences, or all of them when there are fewer |
| Tlv.TryTlvWalk | protopoke/analysis.py:1411-1447 | The loop returns the records of the chain, or nothing when one does not fit |
| Tlv.WalkTiles | protopoke/analysis.py:1411-1447 | A successful walk covers the buffer back to back and ends at its end unless the record limit stopped it |
| Tlv.WalkFailsOnMisfit | protopoke/analysis.py:1429-1444 | A walk fails only because a record of the chain, within the limit, does not fit |
| Tlv.RecordSays | protopoke/analysis.py:1417-1444 | A record is read exactly when its header and its end lie inside the buffer, and ends where its length field says, the header counted in or not |
| Tlv.WalkEncoded | protopoke/analysis.py:1411-1447 | Walking an encoding returns its types, raw lengths and cumulative ends, for every width, byte order and header mode |
| Tlv.EncodeWalked | protopoke/analysis.py:1411-1447 | Encoding what a walk found gives back exactly the bytes it covered |
| Diff.Differences | protopoke/analysis.py:353-370 | The ranges are the ascending maximal runs of differing positions, past-the-end counting as different; each reports the bytes either frame has there and, for equal widths of one to eight bytes, by how much the second is larger as a big-endian number; together they patch one frame into the other |
| Diff.DiffIsPatch | protopoke/analysis.py:353-370 | Replacing each range by its new bytes rebuilds the second frame |
| Diff.EmptyDiffIffEqual | protopoke/analysis.py:353-370 | Nothing is reported if and only if the frames are equal |
| Diff.CommonEnds | protopoke/analysis.py:388-398 | Prefix and suffix are common, maximal and do not overlap |
| Framing.StreamConserved | protopoke/framing/base.py:82-110 | A framer that conserves each read conserves the stream: frames and rest are the bytes fed, and with a flush the frames alone are |
| LengthPrefix.ChunkingInvisibleIff | protopoke/framing/length_prefix.py:122-156 | Every split of a stream into reads gives the same frames and rest if and only if no corrupt or oversize header is followed by a byte |
| LengthPrefix.CorruptHeaderShows | protopoke/framing/length_prefix.py:122-156 | A stream whose oversize header gives one frame in one read and three in two |
| LengthPrefix.HeaderDecides | protopoke/framing/length_prefix.py:132-154 | A negative or oversize length makes everything buffered one frame, a length not yet reached waits, and otherwise that many bytes are a frame and the rest is cut the same way |
| LengthPrefix.MessagesRoundTrip | protopoke/framing/length_prefix.py:122-156 | Well-formed messages, concatenated and arbitrarily chunked, come back as exactly that list with nothing left |
| LengthPrefix.EncodedIsWellFormed | protopoke/framing/length_prefix.py:132-154 | Every payload whose length fits the field is well formed behind its header, for every width, byte order, offset and signed length adjustment |
| LengthPrefix.FramesConserveStream | protopoke/framing/length_prefix.py:132-164 | Frames and rest are the bytes fed, corrupt and oversize paths included |
| LengthPrefix.RestIsIncomplete | protopoke/framing/length_prefix.py:132-156 | What stays buffered is shorter than the header, or than an announced total that is within the limit |
| LengthPrefix.LengthPrefixFramer.Feed | protopoke/framing/length_prefix.py:122-156 | The loop on the object emits the cut of old buffer plus data with consecutive numbers and keeps its rest |
| LengthPrefix.LengthPrefixFramer.Flush | protopoke/framing/length_prefix.py:158-164 | Flush emits the whole buffer, if any, and leaves nothing |
| LengthPrefix.LengthPrefixFramer.MakeFrame | protopoke/framing/base.py:166-197 | Frames take consecutive sequence numbers from the shared counter |
| Delimiter.ChunkingInvisibleIff | protopoke/framing/delimiter.py:64-93 | Every split of a stream gives the same frames and rest if and only if no rest outgrows the limit before the last byte; splits inside a self-overlapping delimiter included |
| Delimiter.LongLineShows | protopoke/framing/delimiter.py:64-93 | A line over the limit that is one frame in one read and two in two |
| Delimiter.LimitIsExact | protopoke/framing/delimiter.py:86-93 | Undelimited bytes stay buffered up to the limit, and become a frame as soon as there is one more |
| Delimiter.SplitIsUnique | protopoke/framing/delimiter.py:71-85 | The frames are the only ones that each end at their first delimiter and leave a rest without one |
| Bytes.FoundIsLeftmost | protopoke/framing/delimiter.py:75-76 | The search passes over no occurrence |
| Bytes.BytePlaces | protopoke/framing/length_prefix.py:136-139 | The last byte of a big-endian field and the first of a little-endian one count once, the others 256 times as much as the next |
| Delimiter.ExcludingStrips | protopoke/framing/delimiter.py:77-93 | Excluding delimiters yields the same frames with the delimiter cut off; an oversize frame has none to lose |
| Delimiter.StreamStripped | protopoke/framing/delimiter.py:77-101 | Over any reads and the flush, leaving delimiters out loses exactly the delimiter at the end of each delimited frame |
| Delimiter.FramesConserveStream | protopoke/framing/delimiter.py:71-101 | With delimiters included, frames and rest are the bytes fed, the oversize path included |
| Delimiter.RestIsResidual | protopoke/framing/delimiter.py:64-93 | What stays buffered holds no delimiter and is within the limit |
| Delimiter.DelimiterFramer.Feed | protopoke/framing/delimiter.py:64-93 | The loop on the object emits the cut of old buffer plus data with consecutive numbers and keeps its rest |
| Delimiter.DelimiterFramer.Flush | protopoke/framing/delimiter.py:95-101 | Flush emits the whole buffer, if any, and leaves nothing |
| Dns.Apply | examples/scripts/dns_a_to_localhost.py:82-129 | The single in-place pass returns what a parse of the untouched original prescribes, and counts the rewrites only when the whole message parses |
| Dns.RewriteRecords | examples/scripts/dns_a_to_localhost.py:108-122 | Parsing the partly rewritten buffer finds the records of the original |
| Dns.SkipNameIn | examples/scripts/dns_a_to_localhost.py:61-79 | The name loop ends, stays in bounds and skips labels, pointers and the root as the function says |
| Dns.SpecRewrites | examples/scripts/dns_a_to_localhost.py:82-129 | Length kept; messages the script cannot parse untouched; otherwise exactly the RDATA of A/IN records of length 4 becomes 127.0.0.1, uniquely, and the record structure is kept |
| Dns.ParseSurvives | examples/scripts/dns_a_to_localhost.py:82-129 | A rewrite parses to the records of the original |
| Dns.SpecIdempotent | examples/scripts/dns_a_to_localhost.py:82-129 | Rewriting twice is rewriting once |
| Dns.ParseEncoded | examples/scripts/dns_a_to_localhost.py:61-122 | Every encoded message parses to its records in all three sections, names compressed or not |
| Dns.RewriteCommutesWithEncode | examples/scripts/dns_a_to_localhost.py:82-129 | Rewriting an encoded message is encoding the message with its addresses replaced |
| DnsWire.AddressBytes | examples/scripts/dns_a_to_localhost.py:108-122 | In a message that parses, the four bytes behind each TYPE 1, CLASS 1 and RDLENGTH 4 become 127, 0, 0 and 1; all other RDATA stays, and so does every byte outside it |
| DnsWire.VariablesCount | examples/scripts/dns_a_to_localhost.py:124-127 | Without an address the variables stay as they are; otherwise `dns_a_rewrites` grows by the number of address records, from nothing if it was not there, and no other variable is touched |
| DnsWire.PointerBits | examples/scripts/dns_a_to_localhost.py:76 | A byte is 192 or more exactly when its top two bits are set |
| DnsWire.SampleRewritten | examples/scripts/dns_a_to_localhost.py:135-146 | The response the script comes with is answered with 127.0.0.1, whatever address it holds |
| DnsStrict.StrictIff | examples/scripts/dns_a_to_localhost.py:61-129 | On every message the script does what a parser that refuses reserved label lengths prescribes if and only if that parser accepts the message or there is no address to replace |
| DnsStrict.StrictParseAgrees | examples/scripts/dns_a_to_localhost.py:61-122 | Whatever the strict parser accepts, the script parses to the same records |
| DnsStrict.StrictParseEncoded | examples/scripts/dns_a_to_localhost.py:61-122 | Of all messages built from valid parts the strict parser accepts exactly those whose labels have at most 63 bytes |
| DnsStrict.EncodedStrictIff | examples/scripts/dns_a_to_localhost.py:61-129 | An encoded message is treated as the standard prescribes if and only if its labels have at most 63 bytes or its addresses are 127.0.0.1 already |
| DnsStrict.ShortIsStrict | examples/scripts/dns_a_to_localhost.py:82-129 | With labels of at most 63 bytes the standard's rewrite is the encoding of the message with its addresses replaced |
| DnsStrict.ReservedLengthIsRewritten | examples/scripts/dns_a_to_localhost.py:71-79 | A message whose first name starts with the reserved length 64 is malformed, and the script rewrites its address |
| DnsStrict.ChangedIffForeign | examples/scripts/dns_a_to_localhost.py:82-129 | The script changes a message if and only if, as it parses it, an address record holds something other than 127.0.0.1 |
| Tamper.VerdictDecides | protopoke/tamper/controller.py:301-336 | A verdict succeeds exactly on a pending undecided unit, fixes it, touches no other, and cannot succeed again |
| Tamper.ForwardAllDecides | protopoke/tamper/controller.py:366-376 | After disabling or shutdown nothing is pending; whatever was pending is decided, open units with FORWARD, decided ones as they were; a unit still undecided had left the table undecided |
| Tamper.QueuedTamperController.Begin | protopoke/tamper/controller.py:211-264 | Up to its await, process holds a unit exactly when the switch is on and each filter that is set takes it: nothing with the switch off, everything with it on and no filter, no frame of the other direction, of a session outside the set or refused by the rule filter; it registers and enqueues what it holds, and hands the rest straight through |
| Tamper.ClearingSelectsMore | protopoke/tamper/controller.py:221-252 | Clearing a filter never releases a frame that was held, and each filter alone decides when the others are clear |
| Tamper.QueuedTamperController.SetDirectionFilter | protopoke/tamper/controller.py:185-187 | The direction filter is set, and neither the pending units nor the switch or another filter change |
| Tamper.QueuedTamperController.SetSessionFilter | protopoke/tamper/controller.py:194-196 | The session filter is set, and neither the pending units nor the switch or another filter change |
| Tamper.QueuedTamperController.SetInterceptFilter | protopoke/tamper/controller.py:203-205 | The rule filter is set, and neither the pending units nor the switch or another filter change |
| Tamper.QueuedTamperController.End | protopoke/tamper/controller.py:263-269 | After its await the unit leaves the pending table and nothing else changes |
| Tamper.QueuedTamperController.CancelWait | protopoke/tamper/controller.py:263-269 | A cancelled wait resolves the future without a verdict and leaves the entry, as the function of the step system says |
| Tamper.QueuedTamperController.SetVerdict | protopoke/tamper/controller.py:301-336 | The object's future and unit change as the verdict function says, and the result tells whether they did |
| Tamper.QueuedTamperController.DropUnit | protopoke/tamper/controller.py:346-348 | The drop shorthand decides a pending open unit with DROP and tells whether it did |
| Tamper.QueuedTamperController.ModifyAndForward | protopoke/tamper/controller.py:350-352 | The modify shorthand decides a pending open unit with the replacement bytes and tells whether it did |
| Tamper.QueuedTamperController.ForwardAll | protopoke/tamper/controller.py:354-360 | Every pending unit is forwarded, and the count is the number that were still open |
| Tamper.QueuedTamperController.ForwardAllPending | protopoke/tamper/controller.py:366-376 | Every pending future is resolved with FORWARD and the table emptied |
| Tamper.QueuedTamperController.SetEnabled | protopoke/tamper/controller.py:169-178 | Switching off releases everything held; switching on changes only the switch |
| Tamper.QueuedTamperController.Shutdown | protopoke/tamper/controller.py:271-273 | Shutdown releases everything held |
| Tamper.QueuedTamperController.GetPending | protopoke/tamper/controller.py:279-286 | The operator takes units in the order they were held; with none queued nothing comes and nothing moves |
| Relay.StepKeepsInv | protopoke/core/relay.py:168-335 | Every step of every relay, operator call, switch and cancellation keeps the linking invariant of relays and controller |
| Relay.OutputRefinesSpec | protopoke/core/relay.py:168-335 | Under every interleaving, cancellations included, a direction's output is the in-order concatenation of the outcomes of its frames, each verdict being the final one of a held unit of this direction with the frame's own bytes, asked for by the one accepted call on it, or FORWARD; only a cancellation loses a frame; at the end no frame is missing, and EOF was sent exactly when it propagates, unless the clean-up itself was cancelled. `RelayRuns.OutputIsDelivered` says what the outcomes are |
| RelayRuns.OutputIsDelivered | protopoke/core/relay.py:258-335 | In every reachable state a direction's output is, frame by frame, one of these: nothing for an accepted DROP or a cancelled frame, the traffic image of the frame, or the tamper image of the edit that the accepted call on its unit was made with (of the traffic image when it had no edit), without rules the bytes and the edit themselves |
| RelayRuns.LogsAreTrue | protopoke/tamper/controller.py:301-336 | The bytes read and the accepted calls that the theorems speak of are those of the run's own steps, in order and with their arguments |
| RelayRuns.HeldIsShown | protopoke/core/relay.py:258-300 | A held frame is put before the operator as its traffic image, undecided, and its relay waits for it |
| RelayRuns.SwitchIsSet | protopoke/tamper/controller.py:169-178 | The switch is set as asked; switched off or shut down, nothing is pending |
| RelayRuns.OffHoldsNothing | protopoke/tamper/controller.py:169-178 | From switching off until switching on again no frame is held and no call succeeds, over any run |
| RelayRuns.NeverStuck | protopoke/core/relay.py:168-228 | From every reachable state, whatever was held, cancelled or switched off, some continuation ends any given relay |
| RelayRuns.WhatIsPossible | protopoke/core/relay.py:168-335 | In every reachable state the operator may make any call and set the switch, any unfinished relay may be cancelled, a cancelled one can be interrupted, and one that was not waits for data, for the verdict on its unit, and for nothing else |
| RelayRuns.BeginsUntouched | protopoke/core/relay.py:110-197 | Each relay begins with nothing read, written, decided or cancelled, and any data, or the end, can come |
| Relay.OneFramePerUnit | protopoke/tamper/controller.py:211-269 | Over any run no held unit decides two frames, of one direction or of two |
| Relay.VerdictTakesEffect | protopoke/tamper/controller.py:301-336 | Over any run an accepted verdict decided a frame, or its unit is still in the hands of its relay, unless a cancellation reached that relay |
| Relay.VerdictCanBeLost | protopoke/tamper/controller.py:254-269 | In every state where a relay waits for an undecided unit, a verdict followed by a cancellation before the relay resumes succeeds and decides nothing: the frame is lost |
| Relay.CancelledTakesNoVerdict | protopoke/tamper/controller.py:254-269 | From the moment a relay waiting for an undecided unit is cancelled, no call ever succeeds on that unit and no frame is decided through it, whatever happens next |
| Relay.NothingLost | protopoke/core/relay.py:180-214 | A direction that was not cancelled decides every frame it is done with |
| Relay.InterruptAccounted | protopoke/core/relay.py:200-228 | What a cancellation takes is recorded as lost in order and none of it is written; the framer's flushed rest is still put through the pipeline |
| Relay.OneVerdictPerUnit | protopoke/tamper/controller.py:301-336 | Over any run at most one operator call succeeds on a unit, and none on a unit whose future was cancelled |
| Relay.WaitingIsResolvable | protopoke/tamper/controller.py:254-269 | A waiting relay can resume, or the next verdict on its unit succeeds and is what it resumes with; a cancelled one can leave |
| Relay.OnePendingPerDirection | protopoke/core/relay.py:197-198 | A direction never has two pending units |
| Relay.NothingStranded | protopoke/tamper/controller.py:169-178 | Right after switching off or shutdown every unit is decided and every waiting relay can resume, or leave if it was cancelled |
| Relay.EofIsLast | protopoke/core/relay.py:211-228 | Nothing is written after EOF |
| Relay.TransparentAtEnd | protopoke/core/relay.py:258-335 | With no rules and every frame forwarded the bytes written at the end are the bytes read |
| EndToEnd.EachMessageDecided | protopoke/core/relay.py:168-335 | With length-prefix framing, messages sent back to back are dealt with one by one, once each and in order, whatever the reads and the interleaving, and their outcomes are all that is written; only a cancellation keeps one from being decided |
| EndToEnd.SameFramesSeen | protopoke/core/relay.py:197-214 | Where chunking is invisible, any two runs on one stream put the same frames before the operator |
| EndToEnd.LengthPrefixTransparent | protopoke/core/relay.py:258-335 | With no rules and only FORWARD verdicts, length-prefix framing passes every stream on byte for byte, corrupt headers included |
| EndToEnd.DelimiterTransparent | protopoke/core/relay.py:258-335 | The same for delimiter framing that keeps its delimiters |
| EndToEnd.DelimiterStripped | protopoke/core/relay.py:258-335 | Delimiter framing that leaves its delimiters out decides, and with no rules and only FORWARD verdicts writes, the stream with exactly the delimiters that end a frame stripped |
| Lifecycle.SessionLifecycle | protopoke/core/proxy.py:533-621 | Over any run: states follow CONNECTING, ACTIVE, one half-open state, CLOSED; CLOSED is final; the callback runs at most once and names the first to finish; a half-open state is recorded if and only if some relay finished, and names the survivor of the first; reaping needs a finished peer and a full idle period |
| Lifecycle.StateOnlyAdvances | protopoke/core/session.py:63-76 | However a run goes on, CLOSED stays, a half-open state stays or closes, and an ACTIVE session never connects again |
| Lifecycle.IdleSurvivorIsReaped | protopoke/core/relay.py:230-256 | The survivor of a half-open session whose read has been pending for a full idle period can be reaped, and then its relay ends |
| Lifecycle.TimeoutIsWakeUp | protopoke/core/relay.py:230-256 | No time-out comes before its time, and while both sides are there it only starts the read again |
| LifecycleRuns.ActiveBecause | protopoke/core/proxy.py:467-540 | Over any run a session is recorded ACTIVE if and only if its upstream connection stood, with SOCKS once the reply had gone out too |
| LifecycleRuns.RunReturnsBecause | protopoke/core/relay.py:168-256 | Over any run a relay returns only because its own stream ended or because it was given up as idle |
| LifecycleRuns.CancelledOnlyDies | protopoke/core/proxy.py:560-621 | From the moment a relay is told to stop it does nothing of its own: it stays where it is, dies and is over, and what is over stays over |
| LifecycleRuns.CancelledCanDie | protopoke/core/proxy.py:560-621 | A relay that was told to stop can always die and be over by itself; one in its callback is over at once |
| LifecycleRuns.DataRestartsClock | protopoke/core/relay.py:230-256 | Data that arrives restarts the idle clock of its own side when the relay reads again, and changes nothing else |
| LifecycleRuns.BusyCanEnd | protopoke/core/relay.py:168-228 | A relay that is busy with data can end as well, and its run returns then |
| Lifecycle.GracefulEnd | protopoke/core/proxy.py:533-621 | A session both of whose sides end by themselves records the half-open state of the survivor, runs one callback for the first, and is CLOSED |
| Lifecycle.CanAlwaysEnd | protopoke/core/proxy.py:533-621 | From every state a session gets into it can be ended, and is CLOSED then |
| Lifecycle.StepKeepsInv | protopoke/core/relay.py:230-256 | Every step of session, relays, timer and operator keeps the invariant |
| Forge.ClosedExactlyOnce | protopoke/forge/engine.py:652-701 | Under any race a session is in the table if and only if it is ACTIVE, and its callback was started once if closed and never before |
| Forge.NothingLost | protopoke/forge/engine.py:621-650 | Bytes read are, in order, those the sends took and those still queued, and each send received exactly what it took |
| Forge.SuccessiveSendsAddUp | protopoke/forge/engine.py:703-808 | For sends that follow one another the receptions joined, then the queue, are everything read; a timeout loses nothing |
| ForgeEnds.OneAtATimeAddsUp | protopoke/forge/engine.py:703-808 | Over every run in which each send on a connection begins when those before it have returned, the receptions joined, then the queue, are everything read |
| Forge.ReaderSilentAfterClose | protopoke/forge/engine.py:652-676 | However a run goes on after a connection closed, it hands over no byte more and its queue only gets shorter; with a reader task nothing is added to it, and without one only errors of the datagram transport |
| Forge.LateErrorArrives | protopoke/forge/engine.py:270-275 | A datagram connection that is opened and closed can have an error queued after that |
| ForgeEnds.ClosedExactlyBy | protopoke/forge/engine.py:621-808 | An open connection is closed by the end of its stream, by an error, and by the operator, at that very step, and by nothing else |
| ForgeEnds.CloserStopsReader | protopoke/forge/engine.py:652-670 | The reader that closes goes on to its callback uncancelled; whoever else closes tells the reader task to stop |
| ForgeEnds.WhatCanArrive | protopoke/forge/engine.py:621-650 | An open connection can at any time be handed any data, its end or an error; a closed one is handed nothing more, its reader stops, and only a datagram transport can still report an error |
| ForgeEnds.OpensFresh | protopoke/forge/engine.py:541-615 | A connection opens under a new id, a datagram one with whatever arrived while it was being opened, and is then open and ACTIVE with exactly that queued |
| ForgeEnds.TakesTheOldest | protopoke/forge/engine.py:761-782 | A waiting send takes the oldest thing queued: data is added to what it received and it waits on, an end or an error ends it |
| ForgeEnds.TimeoutLeavesAlone | protopoke/forge/engine.py:763-770 | A time-out ends the send and leaves every connection as it is, with all that is queued on it |
| ForgeEnds.RefusedLeavesAlone | protopoke/forge/engine.py:721-728 | A send on a connection that is not open fails and changes nothing else |
| ForgeEnds.SendCanReturn | protopoke/forge/engine.py:703-808 | From every state some run reaches, each send can return by its own steps, whatever the others do |
| Forge.StepKeepsInv | protopoke/forge/engine.py:541-571 | Every step of opening, reading, sending and closing keeps the invariant |
| PatternTokens.Tokenize | protopoke/rules/rule.py:87-184 | The index loop returns the tokens, quantifiers folded in, or nothing when some part is no token; `PatternText.TokensSpell` says which tokens those are |
| PatternText.TokensSpell | protopoke/rules/rule.py:98-184 | A text is accepted with certain tokens if and only if it spells them out: hex digits in upper case with their values kept, every other character of a token kept as it is, brackets up to their first close, and only white space left out |
| PatternTokens.ConsumeQuantifierSuffix | protopoke/rules/rule.py:87-95 | A quantifier after spaces is folded into the last token; otherwise nothing moves |
| PatternTokens.TokensRoundTrip | protopoke/rules/rule.py:98-184 | Tokens joined by single spaces are the tokens of the result, for every accepted pattern |
| PatternTokens.DisplayIdempotent | protopoke/rules/rule.py:345-356 | Displaying twice is displaying once, on every string, and keeps the tokens |
| PatternRegex.CompiledMeansTokens | protopoke/rules/rule.py:79-261 | The tokens all have a meaning if and only if every brace holds a count, and the compiled text reads back as one item per token with that meaning if and only if, besides, no class is empty, no range or count runs backwards and every count is below 4294967295 |
| PatternRegex.MalformedBraceIsText | protopoke/rules/rule.py:209-211 | A brace that holds no count repeats nothing: the wildcard before it is read alone and the brace left as text |
| PatternRegex.FragmentReads | protopoke/rules/rule.py:187-261 | A token's text followed by any other fragment is read as that token's meaning and leaves the rest untouched |
| PatternRegex.FragmentsReadBack | protopoke/rules/rule.py:79-84 | Fragments put end to end read back as their tokens' meanings |
| PatternRegex.CompiledMatchesTokens | protopoke/rules/rule.py:79-261 | Whenever every token says something a regular expression can say, the compiled text matches a stretch of bytes if and only if its tokens match successive pieces of it, anchors and quantifiers included |
| PatternForms.HexPatternMatches | protopoke/rules/rule.py:79-261 | Any byte sequence printed as pairs of hex digits, in either case and however spaced, compiles to a text that matches exactly that sequence |
| PatternForms.WrittenPatternReads | protopoke/rules/rule.py:79-261 | Every pattern in the documented syntax - bytes, escapes, ranges, lists, groups, counts, wildcards, anchors, quantifiers, however spaced and in either case - is accepted and compiles to a text that reads as exactly what was written, if no range or count in it runs backwards, no list is empty and every count is below 4294967295 |
| PatternForms.EscapeReadsIff | protopoke/rules/rule.py:204-207 | An escape says a byte as a pair of digits or as one digit beside white space or a sign, of the negative ones only zero, and is refused in every other form |
| PatternReads.CountsExactly | protopoke/rules/rule.py:209-211 | A count is read if and only if it is digits, or digits with one comma and either side left out, and as those numbers |
| PatternReads.GroupsExactly | protopoke/rules/rule.py:243-254 | A group is read if and only if its parts are pairs of hex digits with bars between them |
| PatternReads.RangesExactly | protopoke/rules/rule.py:214-226 | A range is read if and only if it is two pairs of hex digits with a hyphen between them |
| PatternReads.RepeatLimit | protopoke/rules/rule.py:209-211 | No bound reaches the limit of Python's regular expressions, and bounds do not run backwards |
| PatternReads.EscapedBytes | protopoke/rules/rule.py:205-207 | Of the bytes an escape names, exactly those with a meaning of their own and the blanks are written behind a backslash |
| PatternReads.BracePassesOn | protopoke/rules/rule.py:209-211 | A count is passed on as it stands, and refused when it is not ASCII |
| Text.SpacesAre | protopoke/rules/rule.py:116 | The characters that are white space, one by one |
| PatternForms.ClassesMatch | protopoke/rules/rule.py:213-254 | A range matches any one byte from its first to its last, a list or a group any one of its bytes |
| PatternForms.MarksMatch | protopoke/rules/rule.py:190-202 | Anchors match nothing but their place, and the wildcard any one byte |
| PatternRegex.MatchesConcat | protopoke/rules/rule.py:79-84 | The language of two texts side by side is the concatenation of their languages |
| PatternRegex.AnyTimes | protopoke/rules/rule.py:209-211 | Repeating the wildcard matches any stretch of that many bytes |
| PatternRegex.EmptyClassCapturesNeighbour | protopoke/rules/rule.py:227-240 | A class without hex pairs takes in the token after it |
| PatternRegex.DisplayCompilesAlike | protopoke/rules/rule.py:345-356 | The displayed pattern compiles to the text of the pattern itself |
| PatternRegex.ItemsAreGood | protopoke/rules/rule.py:209-240 | The grammar never reads an empty class or a backward range or count |
| PatternRegex.BuildLoop | protopoke/rules/rule.py:79-84 | The loop appends the fragments in order and fails when one token does |
| PatternRegex.ListBytes | protopoke/rules/rule.py:227-240 | The scan of a class keeps its hex pairs and steps over everything else |
| DefinitionRoundTrip.RoundTrip | protopoke/protocol/definition/serializer.py:33-122 | For every definition the loader can return, loading what is printed gives it back if every magic value is bytes and no enum or tag key is a truth value, and is refused otherwise |
| DefinitionRoundTrip.LoadedIsSound | protopoke/protocol/definition/loader.py:104-411 | What the loader guarantees of every definition it returns: sizes, defaults, configs by type, distinct keys at every depth |
| DefinitionRoundTrip.FieldBack | protopoke/protocol/definition/serializer.py:73-95 | A printed field, nested arrays included, loads back exactly when it prints |
| DefinitionRoundTrip.TlvBack | protopoke/protocol/definition/serializer.py:98-115 | A printed TLV configuration with its tag table loads back exactly when no key is a truth value |
| DefinitionRoundTrip.MatchBack | protopoke/protocol/definition/serializer.py:56-70 | A printed match rule loads back exactly when its magic value is bytes |
| DefinitionRoundTrip.FieldGets | protopoke/protocol/definition/serializer.py:73-95 | What each key of a printed field holds, defaults being left out |
| DefinitionRoundTrip.BareMagicFails | protopoke/protocol/definition/loader.py:378-381 | A bare magic number 300 loads, and its printed form is refused |
| DefinitionRoundTrip.FlagKeyFails | protopoke/protocol/definition/loader.py:405-411 | An enum key that is a truth value loads, and its printed form is refused |
| DefinitionMeaning.LoadsWhatIsSaid | protopoke/protocol/definition/loader.py:104-411 | For every value and definition: the loader returns the definition if and only if the value says it, key by key, with the words, spellings, defaults and refusals of the notation, at every depth |
| DefinitionMeaning.PrintedSays | protopoke/protocol/definition/serializer.py:33-122 | What is printed for any loaded definition says that definition and no other, or nothing when a key is a truth value or a magic value is not made of bytes |
| DefinitionMeaning.KeysPrint | protopoke/protocol/definition/serializer.py:88-115 | Keys are printed as Python shows them: integers in decimal, truth values by their names |
| DefinitionMeaning.TablesSay | protopoke/protocol/definition/loader.py:243-304 | In a filled table of a definition each number has the label, the bit name or the tag that the last entry with that key says |
| DefinitionMeaning.TableMeans | protopoke/protocol/definition/loader.py:243-341 | A filled table holds for each number what the last entry with that key says, and nothing for any other number |
| DefinitionMeaning.KeysSayIff | protopoke/protocol/definition/loader.py:333-341 | Which keys an enum, tag or bit table takes, and as which numbers |
| DefinitionNotation.TypeWords | protopoke/protocol/definition/schema.py:36-55 | The loader knows exactly these sixteen type words, and the printer writes each type by its word |
| DefinitionNotation.OtherWords | protopoke/protocol/definition/schema.py:58-79 | Displays, match rules and directions, short forms included, are known by exactly these words |
| DefinitionNotation.SpellingIsFree | protopoke/protocol/definition/loader.py:219 | Capitals never matter, and hyphens do not where the loader turns them into underscores |
| DefinitionReads.FilledLooksUp | protopoke/protocol/definition/loader.py:243-248 | A table is filled exactly when every key and value can be read, and then holds for each number what the last entry with that key says |
| DefinitionReads.WrittenKeyLoads | protopoke/protocol/definition/loader.py:405-411 | A key in base 16, 8, 2 or 10 is loaded as the number it writes |
| DefinitionReads.MagicTextLoads | protopoke/protocol/definition/loader.py:378-402 | A magic text of byte-sized words, each in any notation and however spaced, is loaded as those bytes |
| DefinitionReads.CutTowardsZero | protopoke/protocol/definition/loader.py:195-204 | A real number is cut towards zero |
| DefinitionLoader.FillEnum | protopoke/protocol/definition/loader.py:243-248 | The loop reads every key and sets the labels in turn, a later equal key replacing the value; `DefinitionReads.WrittenKeyLoads` says what a written key is |
| DefinitionLoader.FillTags | protopoke/protocol/definition/loader.py:283-304 | The loop reads every tag and sets the table in turn, or fails at the first bad one |
| DefinitionLoader.FillBits | protopoke/protocol/definition/loader.py:333-341 | The loop reads every bit index and sets the names in turn |
| Values.FillPrinted | protopoke/protocol/definition/serializer.py:88-94 | Printed rows are read back one after another, in order, unless a key is a truth value |
| PyNumbers.IntTextReads | protopoke/protocol/definition/loader.py:405-411 | A printed integer key is read back by both forms of `int` |
| NumberForms.NamedBaseReads | protopoke/protocol/definition/loader.py:395-409 | Digits of base 16, 8 or 2 behind their prefix, in either case and with either sign, are read as their place value |
| NumberForms.DecimalReads | protopoke/protocol/definition/loader.py:340-409 | Decimal digits are read as their place value; only where the text may name its base is a zero in front of another number refused |
| NumberForms.PrefixNeedsNaming | protopoke/protocol/definition/loader.py:340 | Where the text may not name its base, a prefix is refused |
| NumberForms.DigitsExactly | protopoke/protocol/definition/loader.py:395-409 | Just the digits of the base, with single underscores between them, are read; everything else is refused |
| NumberForms.UnderscoreSkipped | protopoke/protocol/definition/loader.py:395-409 | An underscore between two digits is skipped |
| NumberForms.PrefixUnderscore | protopoke/protocol/definition/loader.py:395-409 | An underscore between a prefix and the digits behind it is skipped |
| NumberForms.SpacesAround | protopoke/protocol/definition/loader.py:340-409 | White space around a number does not matter |
| NumberForms.DigitIsItsPlace | protopoke/protocol/definition/loader.py:395-409 | A digit of base 16 is worth its place in the table of digits, in either case, and nothing else is one |
| Socks5.HandshakeAccepted | protopoke/core/socks5.py:77-182 | A well-formed handshake with an offered method and right credentials returns its host and port and leaves exactly the tail unread |
| Socks5.OnlyHandshakesAccepted | protopoke/core/socks5.py:77-182 | Whatever is accepted starts with such a handshake, and exactly its replies were written |
| Socks5.RefusedWithoutCredentials | protopoke/core/socks5.py:140-165 | After a refused sub-negotiation the handshake fails without success having been written |
| Socks5.RequestReads | protopoke/core/socks5.py:119-137 | A CONNECT request decodes to the address and port it encodes, for all three address types |
| Socks5.HostReads | protopoke/core/socks5.py:168-196 | An encoded address is read back, for all three address types |
| SocksOutcomes.GreetingOutcomes | protopoke/core/socks5.py:83-117 | Every greeting, byte by byte: which are refused, with which reply, what is written and what is left unread |
| SocksOutcomes.LoginOutcomes | protopoke/core/socks5.py:140-165 | A sub-negotiation of another version is refused without an answer; wrong credentials are answered and refused, right ones answered and accepted |
| SocksOutcomes.RequestOutcomes | protopoke/core/socks5.py:119-137 | A request is refused for its version, its command or its address type, in this order and with its reply code, and nothing is written; otherwise address and port are those bytes |
| SocksOutcomes.WireFormat | protopoke/core/socks5.py:83-196 | What the well-formed handshake of the other rows is, number by number |
| Socks5.Channel.Negotiate | protopoke/core/socks5.py:77-137 | The steps on the stream consume, write and fail as the handshake function says |
| Socks5.Channel.UserPassSubnegotiate | protopoke/core/socks5.py:140-165 | The sub-negotiation on the stream does as its function says |
| Socks5.Channel.ReadAddress | protopoke/core/socks5.py:168-182 | Reading an address on the stream does as its function says |

## Left out

- Sockets, TLS, certificates, project files, the user interface, the MCP server and logging: I/O and plumbing.
- Write errors and framer swaps in `Relay`. Sessions that are cancelled are already running; one cancelled before its first step never enters its clean-up.
- Replace rules are any functions from bytes to bytes, and each frame's choice to hold or not is free in `Relay`; the class in `Tamper` has the real switch and filters. Regular-expression substitution itself is not part of this model.
- `forward_all` is one atomic call in the controller class and a sequence of single verdicts in the step system.
- The log of frames in a session, the extra frame logged for a modified unit, and the registry dictionary: they do not feed back into what is relayed. The state setters are steps of `Lifecycle`.
- Whether a half-close is sent also depends on the transport's support for it; `propagateEof` stands for both together.
- The retrying read of the UDP flows, the UDP flow tables, `extract_strings` (its loop does not advance on some bytes) and the field parser engine.
- Ids are fresh numbers and frames carry no timestamps.
- NgramReport.FindConstantByteSequences: the share of frames is a real number without the rounding of floating point, and the rounded coverage ratio and the hex text of a result are not stated.
- The side-by-side rows of the diff, the text that shows alignment rows and consensus, and the optional scores of `detect_tlv`.
- DNS compression pointers are skipped, as in the source, never followed; where they point is not checked by the strict parser either.
- Greedy choice among matches: `PatternRegex` says which stretches a compiled pattern can match, not which one a search returns. The grammar covers what the compiler writes; of the text that a brace without a count passes on, only how it begins is stated.
- Which Python exception is raised: refusal is one value in the patterns and in the loader.
- Digits of other scripts, lower-casing of non-ASCII letters and the limit of 4300 decimal digits in Python's number conversions; the text Python prints for real numbers, lists and dictionaries used as names is an arbitrary function, and dates are no values here.
- Text forms of addresses in SOCKS5: a host is its bytes, and decoding of credentials is an arbitrary function. Sending the final reply and the truncation of long names in it are not modelled.
- Tamper.QueuedTamperController.GetPending: the operator's wait for a unit is a call that brings nothing, not a suspended task.

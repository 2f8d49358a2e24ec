# Verified models of the WIoTa access-point firmware

This project models the parts of the access-point firmware with the most state,
branching and arithmetic, and proves what they keep and what they undo. Code that
updates memory in place is modelled by methods over arrays and classes, each
proved against a reference definition. Code that only decides is modelled by
functions.

| file | component |
|---|---|
| `FastLzFormat`, `FastLzParse`, `FastLzDecoder`, `FastLzEncoder`, `FastLz` | the FastLZ codec, both levels: token meaning, greedy parse, decoder, compressor, round trip |
| `Payload` | the one-byte radio framing around it, sender to receiver |
| `PtpTypes`, `PtpClocks`, `PtpArith`, `PtpMsg` | PTP data sets, time arithmetic, messages packed over one buffer |
| `PtpBmc`, `PtpScan`, `PtpElection`, `PtpMasters`, `PtpForeign` | best master clock algorithm, its scan, the election of a whole network, the foreign master table |
| `PtpServo`, `PtpTimer`, `PtpProtocol` | clock servo, timers, and the port state machine over whole runs |
| `RtList`, `PacketStore` | the intrusive ring and the reassembly of segmented packets |
| `SlaveMemory`, `NorFlash` | word-only memory, verified flash writes, erase and program planning |
| `Numerals`, `DecimalList`, `Vsnprintf`, `Conversions` | numerals, decimal list printer and parser, formatted output and what its conversions print |

Hash values, allocation results, network answers, arrival times, elapsed time and
the effect of a single flash page write are parameters or arbitrary values: every
statement holds for all of them. Protocol messages follow IEEE 1588-2008, clauses
9.2, 9.3, 9.5 and 13.

## What the code does differently

Where the code departs from what it documents or from the standard, the model
follows the code, and a lemma states exactly when the property holds.

- Differing variances make a tie: the comparison looks at the clock class a second
  time. A network then fails to elect one clock that all others follow exactly when
  the highest ranked clock is in such a tie (`PtpElection.ElectionSucceeds`,
  `PtpElection.VarianceTieFails`). Two clocks can even decide MASTER at once
  (`PtpMasters.OneMasterIff`).
- The "sender = receiver" exit of the comparison makes two claims equal that are
  not. The order is the documented one exactly outside it (`PtpBmc.CompareIsBetter`),
  and `PtpScan.ScanMisledIff` says for which tables the scan can then end with a
  record that another one beats.
- A slave takes the Announces of its parent without entering them, so that the
  record of the parent grows stale (`PtpForeign.RunHoldsLatest`). The decision that
  follows runs on that record and undoes what was taken
  (`PtpProtocol.FollowThenDecide`).
- Re-initialisation resets the count of foreign records but not the next slot
  (`PtpForeign.CoherentIffNotSkewed`, `PtpForeign.ReinitShifts`), so that a port can be
  counted twice (`PtpForeign.ReinitCountsTwice`).
- Announce and FollowUp do not write the correction field and send on what another
  message left there (`PtpMsg.StaleCorrection`).
- Stopping a timer keeps a pending expiry. A port that has just faulted becomes
  MASTER or LISTENING in the same round exactly when the receipt timeout was pending,
  unless a pending DelayReq then fails, which ends the round in FAULTY
  (`PtpProtocol.DoFollowing`, `PtpProtocol.FaultThenTimeout`). It may send one more
  DelayReq (`PtpProtocol.FaultThenRequest`).
- After the DelayReq counter has wrapped to 0 the answer to the last request is not
  taken (`PtpProtocol.LastAnswerTaken`).
- The offset filter never stores a sample, so a small offset is halved
  (`PtpServo.UpdateOffset`). Ahead of the master 110 ms count as large, behind it
  only a whole second does (`PtpServo.TooFarIff`).
- The mean delay is halved in seconds and nanoseconds apart, and loses half a second
  exactly for an odd number of whole seconds (`PtpServo.MeanIsHalf`).
- An erase rounds its start down without lengthening its size
  (`NorFlash.EraseCovers`, `NorFlash.EraseMisses`).
- The byte swap reaches beyond a length of four or more that is not a multiple of
  four (`NorFlash.ByteSwap`).
- The decimal parser runs past a text that ends in an odd number of commas
  (`DecimalList.ClosedIff`, `DecimalList.TrailingCommaRunsPast`).
- A precision of 0 suppresses the digits of every number, and octal directives
  print hexadecimal (`Vsnprintf.NumberFieldLength`, `Conversions.UnsignedConversion`).
- A compressed payload above 1024 bytes is dropped by the receiver
  (`Payload.EndToEnd`).

## Model

| member | source | states |
|---|---|---|
| FastLz.RoundTrip | PS/at_simplified/fastlz.c:136-577 | both levels, every non-empty input, every hash, a scratch buffer of n + n/32 + 1 bytes: compressing and decompressing gives the input when it fits `maxout`, 0 when it does not, and nothing at or beyond `maxout` is written |
| FastLzDecoder.DecompressRestores | PS/at_simplified/fastlz.c:146-168 | every stream that represents an input at its level, whatever memory follows it, decompresses to that input or is rejected exactly when the input is longer than `maxout`; the level is the one the first byte tells |
| FastLzDecoder.AcceptedIffEncoding | PS/at_simplified/fastlz.c:449-577 | any bytes, any declared length: the decoder of a level accepts them with an output if and only if they are, byte for byte from the first control byte on, the encoding of a well-formed token list that starts with literals, the declared length ends in its last token, and its meaning is that output and fits `maxout` |
| FastLzDecoder.DecompressAccepts | PS/at_simplified/fastlz.c:146-158 | the same for both levels behind the dispatch: exactly the streams of the level the first byte names |
| FastLzDecoder.OperandsAreEncoding | PS/at_simplified/fastlz.c:469-492 | conversely to the round trip, the operand bytes read are the encoding of the token they give, chains and far distances included |
| FastLzDecoder.IterateIsToken | PS/at_simplified/fastlz.c:462-576 | a round that goes on has read the encoding of a valid token and applied that token |
| FastLzDecoder.StreamIsEncoding | PS/at_simplified/fastlz.c:462-576 | reading token by token is holding the encoding of the whole list |
| FastLzDecoder.Decompress | PS/at_simplified/fastlz.c:449-577 | the in-place decoder on arbitrary bytes agrees with the reference decoder, writes only below `maxout` and reads back only what it has written |
| FastLzDecoder.FastLzDecompress | PS/at_simplified/fastlz.c:146-158 | dispatch on the top three bits of the first byte; 0 for an unknown level |
| FastLzDecoder.OperandsRoundTrip | PS/at_simplified/fastlz.c:469-492 | length and distance operands read back as encoded, at both levels, chained lengths and the far escape included |
| FastLzDecoder.IterateToken | PS/at_simplified/fastlz.c:462-576 | one round of the decoder on an encoded token appends exactly that token's meaning |
| FastLzDecoder.CopyReference | PS/at_simplified/fastlz.c:523-553 | the overlapping forward copy is the periodic extension of the output |
| FastLzDecoder.CopyRun | PS/at_simplified/fastlz.c:507-516 | a distance-one reference repeats the last byte |
| FastLzDecoder.CopyLiterals | PS/at_simplified/fastlz.c:556-573 | literals are copied from the stream, everything else is kept |
| FastLzFormat.CopyBackPeriodic | PS/at_simplified/fastlz.c:505-553 | a reference of any length over any distance is the one extension of the output that repeats with that distance (if and only if) |
| FastLzFormat.AppendToken | PS/at_simplified/fastlz.c:221-418 | appending a valid token to a represented prefix represents the longer prefix |
| FastLzEncoder.Compress | PS/at_simplified/fastlz.c:172-447 | the compressor, either level: the bytes written represent the whole input by the tokens of the greedy parse, in at most n + n/32 + 1 bytes, placeholders included; n >= 15 equal bytes take 10 + (n - 14)/255 bytes at level 2 and about 3 for every 262 at level 1, whatever the hash |
| FastLzParse.LiteralHasNoMatch | PS/at_simplified/fastlz.c:221-418 | a byte of the main loop that the parse leaves as a literal had no match to offer: it stands in no run (level 2), and the position named by its slot, the latest there among the literals before, does not agree with it |
| FastLzParse.TakeFits | PS/at_simplified/fastlz.c:272-316 | a match that is taken is one the level can write, and ends only at a differing byte or at the limit |
| FastLzParse.ReachIs | PS/at_simplified/fastlz.c:279-316 | the end of a match is the first differing byte or the limit, and no other |
| FastLzParse.TokensLiteral | PS/at_simplified/fastlz.c:318-431 | the literals are exactly the bytes no match covers |
| FastLzParse.UniformParse | PS/at_simplified/fastlz.c:172-447 | one byte value throughout: two literals, one match, three literals |
| FastLzParse.UniformIsSmall | PS/at_simplified/fastlz.c:172-447 | and the size of that in closed form, at both levels, for every hash |
| FastLzEncoder.TakeMatch | PS/at_simplified/fastlz.c:272-408 | a match found is extended, written and entered into the table |
| FastLzEncoder.CompressLong | PS/at_simplified/fastlz.c:210-447 | the main loop with its literal counter patched afterwards writes the greedy parse |
| FastLzEncoder.CompressShort | PS/at_simplified/fastlz.c:190-208 | inputs under four bytes are one literal run |
| FastLzEncoder.Advance | PS/at_simplified/fastlz.c:221-418 | one turn of the main loop takes the match if and only if one is available, as far as the bytes agree, and else one literal; it keeps "the bytes so far represent the consumed prefix, up to one open literal run, by the tokens of the greedy parse" |
| FastLzEncoder.Probe | PS/at_simplified/fastlz.c:225-271 | a match is reported if and only if there is a run (level 2) or the slot's earlier position is near enough and agrees on three bytes, on five if far; slots stay below the current position |
| FastLzEncoder.ExtendRun | PS/at_simplified/fastlz.c:279-287 | a run is extended to its first differing byte, at most to two bytes before the end |
| FastLzEncoder.ExtendMatch | PS/at_simplified/fastlz.c:288-316 | a match is extended to its first differing byte or to the end limit |
| FastLzEncoder.Flush | PS/at_simplified/fastlz.c:318-327 | the open literal run gets its count, or its placeholder is taken back |
| FastLzEncoder.EmitOne | PS/at_simplified/fastlz.c:376-395 | level 1: a match becomes chunks of at most 262 bytes whose joint meaning is the match, the last one of up to 264 |
| FastLzEncoder.EmitTwo | PS/at_simplified/fastlz.c:334-373 | level 2: near and far matches with chained lengths |
| FastLzEncoder.EmitMatch | PS/at_simplified/fastlz.c:318-408 | closing the literals and emitting the match keeps what is represented and the size bound |
| FastLzEncoder.EmitLiteral | PS/at_simplified/fastlz.c:409-417 | a literal, and the start of a new count after 32 |
| FastLzEncoder.LeftOver | PS/at_simplified/fastlz.c:420-431 | the last bytes go out as literals, in runs of 32 |
| FastLzEncoder.Mark | PS/at_simplified/fastlz.c:439-442 | level 2 sets the marker without disturbing the first count |
| FastLzEncoder.Rehash | PS/at_simplified/fastlz.c:398-402 | the last two positions of a match are entered, and slots stay below the current position |
| FastLz.FastLzCompress | PS/at_simplified/fastlz.c:136-144 | level 1 under 64 KB, level 2 from there on, with the greedy parse of that level; -1 without a hash table, 0 for the empty input |
| FastLz.FastLzCompressLevel | PS/at_simplified/fastlz.c:160-168 | the greedy parse of the given level, 0 for any other number |
| Payload.CompressAndPack | PS/at_simplified/at_simplified.c:808-845 | the buffer then carries the payload, compressed if and only if what the compressor returned is shorter, with that length; the other header bits stay; without a hash table the payload goes raw; without scratch nothing changes |
| Payload.ReceiveCallback | PS/at_simplified/at_simplified.c:413-461 | what the receiver hands on: raw bytes, decompressed bytes, or nothing |
| Payload.EndToEnd | PS/at_simplified/at_simplified.c:413-845 | every packed message is received as its payload, and dropped if and only if it is compressed and the payload exceeds 1024 bytes or the receiver cannot allocate |
| PtpBmc.CompareAntisymmetric | packages/ptpv2/ptpv2_bmc.c:139-319 | swapping the two data sets negates the result, for every pair and parent |
| PtpBmc.CompareIsBetter | packages/ptpv2/ptpv2_bmc.c:139-319 | the decision tree is the order "better" if and only if the pair is not a parent tie |
| PtpBmc.BetterTransitive | packages/ptpv2/ptpv2_bmc.c:139-319 | better is transitive where an identity determines its quality fields |
| PtpScan.ScanMisledIff | packages/ptpv2/ptpv2_bmc.c:376-399 | for a table whose grandmasters have one rank each: in some order of the records the scan ends with one that another beats if and only if, for a grandmaster that no other in the table beats, the records one step behind the nearest include one of the current parent and one from a lower sender |
| PtpScan.BestUnbeaten | packages/ptpv2/ptpv2_bmc.c:389-399 | in every order: where the scan ends with a beaten record, the table holds such a trap; otherwise nothing beats the result, though variance ties make the order partial |
| PtpScan.MisledOrder | packages/ptpv2/ptpv2_bmc.c:389-399 | and for every trap the order that falls into it |
| PtpScan.TrapOutranked | packages/ptpv2/ptpv2_bmc.c:389-399 | the same three records beside one for a better grandmaster do no harm in any order |
| PtpScan.ParentTieMisleads | packages/ptpv2/ptpv2_bmc.c:158-181 | three records, at any distance and whoever sent the nearest, on which the scan fails |
| PtpBmc.Scan | packages/ptpv2/ptpv2_bmc.c:389-396 | the loop computes the record of the reference scan |
| PtpBmc.StateDecision | packages/ptpv2/ptpv2_bmc.c:322-373 | the recommended state, with the data sets of m1 for MASTER and of s1 for SLAVE and PASSIVE; a slave-only clock decides SLAVE with the data of the record; of the others, one that listens without records stays LISTENING and no other does, and class 128 tells SLAVE from PASSIVE |
| PtpBmc.Bmc | packages/ptpv2/ptpv2_bmc.c:376-402 | the same for a whole table; an empty one leaves a master master; a slave-only clock decides SLAVE by the best record |
| PtpElection.Election | packages/ptpv2/ptpv2_bmc.c:70-402 | any number of clocks with distinct identities, none slave-only, any variances, each having heard exactly the others: a clock is elected (alone MASTER, every other SLAVE or PASSIVE with it as parent and grandmaster, one step removed) if and only if it is the highest ranked and ties with no other in the variance |
| PtpElection.ElectionSucceeds | packages/ptpv2/ptpv2_bmc.c:70-402 | some clock is elected if and only if the highest ranked one is untied, as with equal variances; otherwise none is |
| PtpElection.VarianceTieFails | packages/ptpv2/ptpv2_bmc.c:248-263 | among any number of clocks one decides FAULTY if and only if it ties with the clock its scan ends with, and then no clock is elected |
| PtpMasters.OneMasterIff | packages/ptpv2/ptpv2_bmc.c:70-402 | whatever order every clock has its records in, at most one clock decides MASTER, if and only if at most one of the variances of the clocks that agree with the highest ranked one up to the accuracy is that of more than one of them |
| PtpMasters.TwoMasters | packages/ptpv2/ptpv2_bmc.c:248-263 | otherwise there are tables in which two clocks decide MASTER at once |
| PtpMasters.MasterShape | packages/ptpv2/ptpv2_bmc.c:322-373 | a clock that decides MASTER agrees with the highest ranked one up to the accuracy, and has the variance of the clock it found unless it is alone there |
| PtpElection.DecidesByRank | packages/ptpv2/ptpv2_bmc.c:322-373 | every clock decides by its rank against the clock its scan ends with |
| PtpElection.BestIsTop | packages/ptpv2/ptpv2_bmc.c:389-399 | where the highest ranked clock is untied, every other scan ends with its record |
| PtpElection.CompareIsRank | packages/ptpv2/ptpv2_bmc.c:186-319 | between two local masters the comparison is the ranking, whatever the parent, and 0 exactly for a variance tie |
| PtpElection.TopUnique | packages/ptpv2/ptpv2_bmc.c:186-319 | the highest ranked clock is unique |
| PtpElection.TopExists | packages/ptpv2/ptpv2_bmc.c:186-319 | and there is one in every non-empty network |
| PtpElection.AnnounceIsHeard | packages/ptpv2/ptpv2_msg.c:68-106 | the Announce of a master, packed over any earlier messages and unpacked, is its claim in full |
| PtpForeign.RunHoldsLatest | packages/ptpv2/ptpv2_protocol.c:590-667 | after every run without a skew the counted records are of distinct ports, and one holds the latest Announce of its port if and only if that port has not been followed to a different one since it was last entered |
| PtpForeign.FollowedLeavesStale | packages/ptpv2/ptpv2_protocol.c:611-634 | a slave that follows its parent to a new Announce leaves a record that is not the latest |
| PtpForeign.RunHoldsOrigin | packages/ptpv2/ptpv2_protocol.c:1417-1462 | after every run, re-initialised or not, a counted record holds the latest Announce of its port if and only if that says what the one that last wrote the slot said |
| PtpForeign.RecordsOrigin | packages/ptpv2/ptpv2_protocol.c:1417-1462 | every slot that was written holds the Announce that last wrote it |
| PtpForeign.CoherentIffNotSkewed | packages/ptpv2/ptpv2_bmc.c:64-66 | until the table is full it is orderly if and only if the next slot was 0 at the last re-initialisation, which resets the count alone |
| PtpForeign.ReinitShifts | packages/ptpv2/ptpv2_bmc.c:64-66 | after a re-initialisation insertions go on from the old slot, and the slots below it keep their old ports until the insertions come round |
| PtpForeign.ReinitCountsStaleRecord | packages/ptpv2/ptpv2_bmc.c:64-66 | so the first Announce afterwards goes where it is not counted, and a record of before is counted instead |
| PtpForeign.DistinctStep | packages/ptpv2/ptpv2_protocol.c:1442-1461 | an insertion keeps the counted ports distinct if and only if the table is full, or the slot newly counted is the one written, or that holds an old record of a port not counted otherwise |
| PtpForeign.ReinitCountsTwice | packages/ptpv2/ptpv2_bmc.c:64-66 | re-initialised with one record, a table counts the same port twice after two more Announces |
| PtpForeign.EnteredCounted | packages/ptpv2/ptpv2_protocol.c:1442-1461 | an Announce lands in a counted slot if and only if its port was counted or the next slot is not beyond the count |
| PtpForeign.FindIsKnows | packages/ptpv2/ptpv2_protocol.c:1422-1440 | the cyclic scan from the best record finds a port if and only if a counted record is of it |
| PtpForeign.FindForeign | packages/ptpv2/ptpv2_protocol.c:1422-1440 | the loop computes that scan |
| PtpForeign.AddForeign | packages/ptpv2/ptpv2_protocol.c:1417-1462 | the table step of the reference, from every state |
| PtpForeign.InsertIsEnqueue | packages/ptpv2/ptpv2_protocol.c:1443-1461 | a new port is enqueued and a full table drops the oldest: a bounded first-in first-out queue |
| PtpForeign.RefreshKeepsQueue | packages/ptpv2/ptpv2_protocol.c:1427-1437 | an Announce of a known port changes neither the order nor the ports |
| PtpProtocol.Protocol | packages/ptpv2/ptpv2_protocol.c:62-82 | in every state between two rounds of any run: only six port states; a slave-only clock is never MASTER or PASSIVE and never packs Sync, Announce or DelayResp; MASTER has the data sets of m1; every Announce packed is of the clock itself as its own master; timers run only in their states; the buffer names the own port, version and domain; of any two states that follow each other, FAULTY is followed by INITIALIZING, and that only by itself, FAULTY or LISTENING |
| PtpProtocol.OnTheWire | packages/ptpv2/ptpv2_msg.c:25-196 | whatever was packed since initialisation, the buffer carries the own port, version 2 and the own domain, the type of the last message, and the correction field last written |
| PtpProtocol.AnnouncesItself | packages/ptpv2/ptpv2_protocol.c:1227-1241 | every Announce of a run is received as the claim of this clock for itself, which is what the election assumes of the records |
| PtpProtocol.ToState | packages/ptpv2/ptpv2_protocol.c:85-215 | the timers of the state left are stopped, those of the state entered freshly started, and the servo reset around SLAVE |
| PtpProtocol.Leave | packages/ptpv2/ptpv2_protocol.c:91-123 | no timer runs after leaving a state |
| PtpProtocol.DoInit | packages/ptpv2/ptpv2_protocol.c:217-250 | LISTENING as its own master, or INITIALIZING or FAULTY |
| PtpProtocol.InitData | packages/ptpv2/ptpv2_bmc.c:6-67 | identity from the MAC address, default data set from the options; the table is re-initialised in its history |
| PtpProtocol.BeginTrace | packages/ptpv2/ptpv2_protocol.c:245-245 | the header is written once for all later messages |
| PtpProtocol.DoState | packages/ptpv2/ptpv2_protocol.c:253-400 | a decision where an Announce has asked for one, then the round of the state it left: what has expired is sent, the state after it is given exactly, and FAULTY always leads to INITIALIZING |
| PtpProtocol.ReceiptTimeout | packages/ptpv2/ptpv2_protocol.c:314-326 | the table is emptied; MASTER if the clock is not slave-only and not of class 255, else LISTENING |
| PtpProtocol.MasterSends | packages/ptpv2/ptpv2_protocol.c:361-373 | a Sync, then an Announce of the data sets, each with its number, or what of them has expired; a failed send faults the port, and the second may follow the first failure |
| PtpProtocol.DoMaster | packages/ptpv2/ptpv2_protocol.c:347-389 | Sync and Announce whose intervals have expired go out, then at most one reply; a slave-only clock or one of class 255 goes to LISTENING, any other stays MASTER or faults |
| PtpProtocol.DoFollowing | packages/ptpv2/ptpv2_protocol.c:304-345 | the state a round ends in, from what happened in it; after a fault the receipt timeout is reported if and only if it was pending, and a port that faulted or is no slave packs a DelayReq if and only if that interval was pending; besides that at most one FollowUp or DelayResp is packed |
| PtpProtocol.FaultThenTimeout | packages/ptpv2/ptpv2_protocol.c:304-328 | a receipt timeout that runs out while the other interval is asked for is still reported after the fault that follows, and the slave becomes MASTER or LISTENING |
| PtpProtocol.FaultThenRequest | packages/ptpv2/ptpv2_protocol.c:330-337 | likewise the delay interval, and a port that has left SLAVE sends one more DelayReq |
| PtpProtocol.DecisionEvent | packages/ptpv2/ptpv2_protocol.c:271-291 | the recommendation of bmc is the new state, and a port that follows takes the data of the best record; a slave-only port is then SLAVE with the sender of that record as parent, and any other that listens without records stays so |
| PtpProtocol.FollowThenDecide | packages/ptpv2/ptpv2_protocol.c:271-291 | a slave that has just followed its parent and stays one is left with the data of the record, as if it had not followed |
| PtpProtocol.ReachableTable | packages/ptpv2/ptpv2_protocol.c:253-400 | in every reachable state the records are as the history of the run says, with both equivalences above |
| PtpProtocol.Handle | packages/ptpv2/ptpv2_protocol.c:403-587 | every message of this version and domain has the effect of its type, by the bytes received: an Announce is noted and, exactly then, asks for a decision; a Sync, FollowUp or DelayResp of the parent is measured; a DelayReq is answered; a short one is a fault and anything else has no effect. Data sets change only in SLAVE by the parent; at most a FollowUp or a DelayResp is packed |
| PtpProtocol.ReceivedEffects | packages/ptpv2/ptpv2_protocol.c:403-587 | whatever is received: a decision is asked for if and only if it is an Announce of another port, long enough, of this version and domain, in an active state; data sets change only in SLAVE by the parent; at most one reply; the state stays or is FAULTY |
| PtpProtocol.SlaveMeasures | packages/ptpv2/ptpv2_protocol.c:669-752 | a one-step Sync of the parent gives a slave the offset: arrival minus time stamp minus correction minus delay, halved if it is small |
| PtpProtocol.SlaveMeasuresTwoStep | packages/ptpv2/ptpv2_protocol.c:669-835 | a two-step Sync and its FollowUp give the offset by the time stamp of the FollowUp, the arrival of the Sync and both corrections |
| PtpProtocol.SlaveMeasuresDelay | packages/ptpv2/ptpv2_protocol.c:894-955 | the parent's answer to the last request gives the mean path delay: half the sum of both directions less the correction |
| PtpProtocol.MasterAnswers | packages/ptpv2/ptpv2_protocol.c:837-892 | a master answers every DelayReq, to its sender and number, with the time it arrived |
| PtpProtocol.Dispatch | packages/ptpv2/ptpv2_protocol.c:540-587 | each type of message goes to its handler |
| PtpProtocol.ArrivalTime | packages/ptpv2/ptpv2_protocol.c:470-511 | the first Sync only sets the clock; a master takes the time stamp in the message |
| PtpProtocol.HandleAnnounce | packages/ptpv2/ptpv2_protocol.c:590-667 | a short one is a fault; one of another port in an active state is noted and asks for a decision; any other has no effect |
| PtpProtocol.NoteAnnounce | packages/ptpv2/ptpv2_protocol.c:611-664 | a slave follows its parent at once, everything else goes into the table, never both |
| PtpProtocol.HandleSync | packages/ptpv2/ptpv2_protocol.c:669-752 | a slave takes its parent's; another active port repeats its own in a FollowUp, with the latency added; any other has no effect |
| PtpProtocol.TakeSync | packages/ptpv2/ptpv2_protocol.c:698-733 | its arrival is noted; a two-step Sync waits for the FollowUp of its number, any other gives the offset by its times |
| PtpProtocol.HandleFollowUp | packages/ptpv2/ptpv2_protocol.c:754-835 | a slave takes the FollowUp it waits for, by number and parent; any other has no effect |
| PtpProtocol.TakeFollowUp | packages/ptpv2/ptpv2_protocol.c:794-811 | the offset by the time stamp of the FollowUp, the arrival of the Sync and both corrections |
| PtpProtocol.HandleDelayReq | packages/ptpv2/ptpv2_protocol.c:837-892 | a master answers it, copying the request; a slave notes when its own went out; any other has no effect |
| PtpProtocol.HandleDelayResp | packages/ptpv2/ptpv2_protocol.c:894-955 | a slave takes its parent's answer to its own last request, with delay and interval; any other has no effect |
| PtpProtocol.TakeResponse | packages/ptpv2/ptpv2_protocol.c:925-941 | time and interval of the answer are noted, and the delay is measured once there is an offset |
| PtpProtocol.LastAnswerTaken | packages/ptpv2/ptpv2_protocol.c:925-940 | the parent's answer to the last request is taken if and only if the counter has not just wrapped to 0 |
| PtpProtocol.IssueAnnounce | packages/ptpv2/ptpv2_protocol.c:1227-1241 | the data sets as they are; the number moves on only if the send succeeds |
| PtpProtocol.IssueSync | packages/ptpv2/ptpv2_protocol.c:1244-1278 | number and time of the clock; the number moves on only if the send succeeds |
| PtpProtocol.IssueFollowup | packages/ptpv2/ptpv2_protocol.c:1281-1298 | the number of the last Sync and the given time |
| PtpProtocol.IssueDelayReq | packages/ptpv2/ptpv2_protocol.c:1301-1331 | number and time of the clock; number and send time are noted only if the send succeeds |
| PtpProtocol.NoteRequest | packages/ptpv2/ptpv2_protocol.c:1322-1330 | the time of the request is noted unless the clock is still at 0 s |
| PtpProtocol.IssueDelayResp | packages/ptpv2/ptpv2_protocol.c:1380-1395 | number, domain, correction and port of the request |
| PtpMsg.SharedBuffer | packages/ptpv2/ptpv2_msg.c:25-196 | any sequence of messages keeps transport, version and source port, and the domain if all requests were for it; the correction field is what Sync, DelayReq or DelayResp last wrote |
| PtpMsg.HeaderRoundTrip | packages/ptpv2/ptpv2_msg.c:6-196 | unpacking the header of a packed message gives its own fields and the earlier ones for all others |
| PtpMsg.TimestampRoundTrip | packages/ptpv2/ptpv2_msg.c:42-245 | the time stamp, and the requesting port of a DelayResp, come back |
| PtpMsg.AnnounceRoundTrip | packages/ptpv2/ptpv2_msg.c:68-106 | all fields of an Announce come back |
| PtpMsg.StaleCorrection | packages/ptpv2/ptpv2_msg.c:109-123 | a FollowUp after a DelayResp carries the correction of the answered request |
| PtpMsg.MsgPackHeader | packages/ptpv2/ptpv2_msg.c:25-39 | writes exactly the constant fields |
| PtpMsg.MsgPackSync | packages/ptpv2/ptpv2_msg.c:42-57 | the buffer becomes the reference packing over the old one |
| PtpMsg.MsgPackAnnounce | packages/ptpv2/ptpv2_msg.c:68-89 | likewise |
| PtpMsg.MsgPackFollowUp | packages/ptpv2/ptpv2_msg.c:109-123 | likewise, with the number before the next Sync's, in 16 bits |
| PtpMsg.MsgPackDelayReq | packages/ptpv2/ptpv2_msg.c:154-169 | likewise |
| PtpMsg.MsgPackDelayResp | packages/ptpv2/ptpv2_msg.c:172-196 | likewise |
| PtpArith.NormalizeCorrect | packages/ptpv2/ptpv2_arith.c:131-146 | always the sign-consistent form; the total is kept if and only if the carry stays in range |
| PtpArith.NormalUnique | packages/ptpv2/ptpv2_arith.c:131-146 | that form is unique |
| PtpArith.AddSubExact | packages/ptpv2/ptpv2_arith.c:148-162 | sums and differences of normal times are normal, and exact if and only if the seconds stay in range before and after the carry |
| PtpArith.SubUndoesAdd | packages/ptpv2/ptpv2_arith.c:148-162 | subtracting what was added gives the time back |
| PtpArith.TimeOnTheWire | packages/ptpv2/ptpv2_arith.c:92-129 | a time survives conversion, packing, unpacking and conversion back, if it is not negative and below INT_MAX seconds; all other cases are told apart |
| PtpArith.AddTime | packages/ptpv2/ptpv2_arith.c:148-154 | the sum of the old values, also when the arguments are one cell |
| PtpArith.SubTime | packages/ptpv2/ptpv2_arith.c:156-162 | the difference of the old values, likewise |
| PtpServo.FilterRunWithin | packages/ptpv2/ptpv2_servo.c:30-67 | over every sequence of samples and resets from the zero filter, the output stays within the largest sample and s_exp within 2^s |
| PtpServo.FilteredWithin | packages/ptpv2/ptpv2_servo.c:49-67 | one sample: 1 <= s_exp <= 2^s for the chosen s, no stored value wraps, the weighted mean is exact in its two truncations |
| PtpServo.StiffnessBound | packages/ptpv2/ptpv2_servo.c:50-53 | the loop ends with the largest s that leaves room for the product |
| PtpServo.NoOverflow | packages/ptpv2/ptpv2_servo.c:50-60 | (s_exp - 1) * y fits 32 bits |
| PtpServo.FilterSample | packages/ptpv2/ptpv2_servo.c:49-67 | the code computes the filter step |
| PtpServo.UpdateDelay | packages/ptpv2/ptpv2_servo.c:22-71 | the mean of both directions is taken: one of a second or more resets the filter, any other is filtered; no delay before the first offset |
| PtpServo.MeanIsHalf | packages/ptpv2/ptpv2_servo.c:29-39 | in range the mean is half the sum of both delays less the correction, exact below a second; rounded toward zero if and only if the sum has an even number of whole seconds, half a second short otherwise |
| PtpServo.FilterIsAverage | packages/ptpv2/ptpv2_servo.c:54-67 | the output moves by a k-th part toward the mean of the last two samples, within two nanoseconds |
| PtpServo.ExpCounts | packages/ptpv2/ptpv2_servo.c:54-60 | s_exp counts the samples since the restart, up to 2^s |
| PtpServo.OffsetIsDifference | packages/ptpv2/ptpv2_servo.c:145-160 | in range the offset is receipt minus sending minus correction minus delay, to the nanosecond |
| PtpServo.DriftIsSum | packages/ptpv2/ptpv2_servo.c:261-276 | the accumulator is the sum of the offsets over ai as long as it does not reach the limit |
| PtpServo.DriftAtLimit | packages/ptpv2/ptpv2_servo.c:272-276 | past the limit the accumulator stays there, on the side of the offset |
| PtpServo.UpdateOffset | packages/ptpv2/ptpv2_servo.c:138-206 | the offset is receive minus send minus correction minus delay; a small one is halved, since the filter never stores a sample |
| PtpServo.TooFarIff | packages/ptpv2/ptpv2_servo.c:160-172 | an offset is treated as large if and only if it is 110 ms or more ahead, or a second or more behind |
| PtpServo.UpdateClock | packages/ptpv2/ptpv2_servo.c:208-301 | a large offset sets the clock back by it, any other gives the PI adjustment; the drift stays within 512000 |
| PtpTimer.TimerUpdate | packages/ptpv2/ptpv2_timer.c:64-84 | every running timer counts down and reloads on expiry |
| PtpTimer.TimerExpired | packages/ptpv2/ptpv2_timer.c:106-119 | true if and only if an expiry was pending or the interval ran out; the report uses it up, the other timers only tick |
| Reassembly.CompleteWhenAllArrived | app/wiota_manager/manager_data_packet.c:142-198 | after any arrivals, duplicates and bad ids included, the packet is complete if and only if every id has arrived |
| Reassembly.AfterIsLatest | app/wiota_manager/manager_data_packet.c:142-162 | each segment holds the latest accepted data for its id |
| Reassembly.LatestIsLast | app/wiota_manager/manager_data_packet.c:142-162 | that data is of an arrival after which none of the id carries data |
| Reassembly.FilledComplete | app/wiota_manager/manager_data_packet.c:142-198 | the count equals the total if and only if no segment is missing |
| Reassembly.FilledUpdate | app/wiota_manager/manager_data_packet.c:142-162 | a segment adds to the count if and only if its id was missing |
| Reassembly.DataPacket.AddSegment | app/wiota_manager/manager_data_packet.c:142-162 | count and segments follow the arrivals; ids out of range and missing data are refused |
| Reassembly.DataPacket.Reader | app/wiota_manager/manager_data_packet.c:173-198 | succeeds if and only if complete, with the segments joined in order |
| Reassembly.Reassemble | app/wiota_manager/manager_data_packet.c:82-198 | any arrivals fed to a packet: it can be read if and only if every id has arrived, and then as the latest data of every id in order |
| Reassembly.CopySegments | app/wiota_manager/manager_data_packet.c:183-197 | the buffer is the concatenation |
| Reassembly.PacketList.Append | app/wiota_manager/manager_data_packet.c:82-101 | the ring of next and prev links is the old sequence and the new node |
| Reassembly.PacketList.Prepend | app/wiota_manager/manager_data_packet.c:111-130 | the new node and the old sequence |
| Reassembly.PacketList.Remove | app/wiota_manager/manager_data_packet.c:205-227 | the sequence without that node |
| Reassembly.PacketList.Find | app/wiota_manager/manager_data_packet.c:63-72 | the first node with both ids, or none has them |
| Reassembly.PacketList.Len | rt-thread/include/rtservice.h:107-119 | the length of the sequence |
| Reassembly.PacketList.InsertAfter | rt-thread/include/rtservice.h:58-65 | the links again form one ring, with the node after the given one |
| Reassembly.PacketList.InsertBefore | rt-thread/include/rtservice.h:73-80 | and before the given one |
| Reassembly.PacketList.Unlink | rt-thread/include/rtservice.h:86-92 | the rest stays one ring and the node becomes a ring of its own |
| RtList.InsertLinked | rt-thread/include/rtservice.h:58-65 | the four link updates turn any ring into the ring with the node inserted |
| RtList.RemoveLinked | rt-thread/include/rtservice.h:86-92 | the removal updates give two rings |
| SlaveMemory.Chip.MemWriteData | packages/slave_uc8x88/slave_uc8x88.c:690-765 | over a memory of aligned words, exactly the addressed bytes change, to the data, at any alignment and length |
| SlaveMemory.Chip.MemReadData | packages/slave_uc8x88/slave_uc8x88.c:623-688 | exactly the addressed bytes |
| SlaveMemory.Chip.WriteWord | packages/slave_uc8x88/slave_uc8x88.c:727-757 | one read-modify-write extends the written prefix |
| SlaveMemory.Chip.FlashWriteData | packages/slave_uc8x88/slave_uc8x88.c:265-340 | a verified write that returns 0 means the flash holds the data, though any page write may corrupt its page; the flash is sent the pages in order with their data, each once or, while its check fails, up to five times; pages outside are untouched; 1 only after five writes of one page, -2 exactly without memory for the check, -1 for no data or an unaligned address |
| SlaveMemory.Chip.WritePage | packages/slave_uc8x88/slave_uc8x88.c:294-333 | a page that passes its check holds its data; its data is sent once, again after a failed check, and given up after exactly five writes |
| NorFlash.EraseProgramRead | applications/spim_api.c:128-264 | erase, program, read gives the data, in both byte orders, when the erased range covers it |
| NorFlash.EraseCovers | applications/spim_api.c:149-158 | the erased range covers the asked one if and only if the offset of the start and that of the last byte, counted from 0, fit one sector |
| NorFlash.EraseMisses | applications/spim_api.c:149-158 | two bytes from 4095 on: the second is not erased |
| NorFlash.Nor.FlashErase | applications/spim_api.c:128-189 | the commands tile the sector-rounded range with blocks aligned to their size, and only that range is erased |
| NorFlash.Nor.ProgramChunks | applications/spim_api.c:204-228 | no command crosses a page and together they program exactly the data |
| NorFlash.FlashPageProgram | applications/spim_api.c:191-233 | the range takes the data in the byte order asked for; nothing for no data or no memory |
| NorFlash.ProgrammedBig | applications/spim_api.c:191-233 | on erased cells, big-endian programming leaves the data |
| NorFlash.ProgrammedLittle | applications/spim_api.c:191-233 | and little-endian programming leaves every group of four bytes turned around |
| NorFlash.FlashPageRead | applications/spim_api.c:235-264 | the range in the byte order asked for |
| NorFlash.ProgramErased | applications/spim_api.c:191-233 | clearing bits of erased cells gives the data |
| NorFlash.SwapTwice | applications/spim_api.c:594-618 | swapping twice is the identity |
| NorFlash.EndianSwap | applications/spim_api.c:594-606 | mirrors exactly the given range |
| NorFlash.ByteSwap | applications/spim_api.c:608-618 | any length: every group of four is mirrored, also beyond the length, where the last one reaches if and only if that is at least four and no multiple of four |
| NorFlash.GroupsInside | applications/spim_api.c:608-618 | the groups of four stay inside if and only if the length is a multiple of four |
| DecimalList.PrintAndParse | PS/at/at_wiota.c:981-1109 | every byte array, any length, zero-filled buffers, any allocation results: printing and parsing gives the same count and bytes, 0 where the field could not be copied |
| DecimalList.ParsedOfPrinted | PS/at/at_wiota.c:1015-1109 | the printed text has one field per byte, denoting it, and the parser stops inside it |
| DecimalList.StringToArray | PS/at/at_wiota.c:1015-1043 | any text: each field adds its number modulo 256 to its element, and the parser runs past the text if and only if that ends in an odd number of commas |
| DecimalList.ClosedIff | PS/at/at_wiota.c:1022-1036 | the scan stays inside the text if and only if that ends in an even number of commas |
| DecimalList.TrailingCommaRunsPast | PS/at/at_wiota.c:1022-1036 | one comma after a number makes it run past, two do not |
| DecimalList.StringToInt | PS/at/at_wiota.c:992-1013 | adds the number the digits denote, modulo 256, to that element only, or nothing without memory |
| DecimalList.NthPower | PS/at/at_wiota.c:981-990 | the power modulo the word size |
| DecimalList.ArrayToString | PS/at/at_wiota.c:1086-1109 | the numerals with commas between, and nothing written behind them |
| DecimalList.Itoa | PS/at/at_wiota.c:1063-1084 | the decimal numeral |
| DecimalList.StrReverse | PS/at/at_wiota.c:1045-1061 | the reversal in place |
| DecimalList.NumeralOfDecimal | PS/at/at_wiota.c:992-1084 | the numeral of a number denotes it |
| Vsnprintf.VsnPrintf | rt-thread/src/kservice.c:780-1043 | every format, arguments and size: the result is the length of the unbounded output, independent of the size; for a positive size the first min(n, size-1) characters and a NUL are left; nothing at or past the size is written |
| Vsnprintf.PutFormat | rt-thread/src/kservice.c:812-1028 | the loop puts the meaning of the format |
| Vsnprintf.PrintNumber | rt-thread/src/kservice.c:609-778 | a number field: padding, sign, zeros, digits |
| Vsnprintf.NumberFieldLength | rt-thread/src/kservice.c:684-775 | a field has max(width, sign + max(digits, precision)) characters if and only if the precision is not 0 |
| Vsnprintf.NumberFieldReads | rt-thread/src/kservice.c:632-775 | a field with a precision other than 0, read as spaces, sign and digits, is the argument: signed for a signed conversion, as a 32-bit word otherwise |
| Numerals.DigitsDenote | rt-thread/src/kservice.c:571-588 | decimal and hexadecimal digits denote the number |
| Vsnprintf.TakeDigits | rt-thread/src/kservice.c:673-682 | the digits of any 32-bit number, lowest first, fit the sixteen bytes |
| Vsnprintf.NumberFromValue | rt-thread/src/kservice.c:591-598 | the number read is the value of the longest run of decimal digits |
| Vsnprintf.SkipAtoi | rt-thread/src/kservice.c:591-598 | the loop reads that number |
| Vsnprintf.ReadDirective | rt-thread/src/kservice.c:822-886 | flags, width, precision and qualifier of a directive, arguments taken in order |
| Vsnprintf.PutField | rt-thread/src/kservice.c:888-1028 | the field of every directive, unknown ones included, and the arguments it uses up; what the fields are is in Conversions |
| Conversions.SignedConversion | rt-thread/src/kservice.c:822-1028 | `%d` and `%i` with any flags, width, precision other than 0 and qualifier, anywhere in a format: the output reads as the argument (its signed lower half with `h`), is as wide as asked for, padded on the side the flags say, with `+` exactly where asked for |
| Conversions.UnsignedConversion | rt-thread/src/kservice.c:822-1028 | `%u` reads in decimal, `%x` and `%X` in hexadecimal with letters of their case, as the unsigned argument; `%o` prints like `%x` |
| Conversions.PointerConversion | rt-thread/src/kservice.c:948-963 | `%p` reads in hexadecimal as the pointer, by default in at least eight digits |
| Conversions.StringConversion | rt-thread/src/kservice.c:916-946 | `%s` copies the string or what a positive precision admits of it, padded on the side the flags say; (NULL) for a null pointer |
| Conversions.CharConversion | rt-thread/src/kservice.c:893-914 | `%c` copies the low byte, padded likewise |
| Conversions.PercentConversion | rt-thread/src/kservice.c:965-968 | `%%` is one percent sign and takes no argument |
| Conversions.DirectiveSpelled | rt-thread/src/kservice.c:822-886 | flags, width and precision as they are spelled in the format |
| Conversions.PlainNumber | rt-thread/src/kservice.c:822-1028 | plain `%d`, `%u`, `%x`, `%X`: the whole output reads as the argument |
| Conversions.StarWidth | rt-thread/src/kservice.c:838-851 | `%*d` takes its width from the argument before; a negative one pads on the right |

## Left out

- FastLzEncoder.Compress: sizes and positions are unbounded integers, because 32-bit wrap-around needs inputs beyond the memory of the device.
- FastLzEncoder.Probe: the hash is an arbitrary slot for each position, because the round trip must not depend on it; the level-2 hash that looks one byte past the input is therefore not visible.
- FastLzDecoder.Decompress: a length chain long enough to wrap 32 bits is not modelled; reads past the supplied stream end the decoding with an outcome of their own.
- Payload.CompressAndPack: null pointers (-1) are not modelled, and the buffer is at most 1 GiB so that the doubled size fits an int.
- PtpProtocol.ToState: timer intervals are arbitrary numbers, because the code computes them in floating point.
- PtpProtocol.Handle: a message longer than the input buffer is cut at the buffer, and setting the system clock from the first Sync is not modelled.
- PtpProtocol.Protocol: a run is any finite number of rounds; the pauses between rounds are not modelled.
- PtpServo.FilterSample: the stiffness option is at most 30, as far as the shift in the code is defined.
- Reassembly.PacketList.Append: nodes are addresses with next and prev as maps, so that freeing and reusing memory is not modelled; a failed allocation is not either.
- Reassembly.DataPacket.AddSegment: the packet has at least one segment, and freeing replaced data is not modelled.
- SlaveMemory.Chip.MemWriteData: the byte swap that is compiled out, the mutex and the chip presence checks are not modelled.
- NorFlash.Nor.FlashErase: whole-chip erase (size -1) and waiting for the busy bit are not modelled.
- DecimalList.StringToArray: what the parser finds once it has run past its text is not modelled.
- Vsnprintf.VsnPrintf: 64-bit arguments and the `#` prefix, which are not compiled in, and width overflow in a format are not modelled; the size is within the buffer.
- `integer64_to_internalTime`, which rounds through floating point: its result is an arbitrary time.
- Peer-delay messages and filter: unreachable, since end-to-end mode is fixed at startup.
- Management and signaling handlers, which are empty, and the display functions.
- `recv_data_packet_clear`, which removes all packets one by one, and `recv_data_packet_print`.
- NorFlash.FlashPageProgram: a length for which the byte swap leaves its buffer is not modelled in little-endian order, because the code then writes into memory it does not own.
- NorFlash.FlashPageRead: likewise.
- SPI transfers, byte order on the bus, on-chip flash chunking, AT command handlers, MQTT, sockets, GNSS and drivers.

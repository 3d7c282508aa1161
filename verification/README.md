# A verified model of the telecontrol gateway

The gateway collects data from meters and substations and passes it on to control centres. This
project models the parts of it where mistakes are easy to make and hard to see, and proves what they
are for.

**The IEC 60870-5-104 link layer** (`LinkLayer` and the other `Link*` modules). Class
`LinkLayer.EndPoint` has the fields of `iec104_ep_ext` and its handlers; each method is proved equal
to a function on the fields. Runs of one end point are treated in `LinkRun`. `LinkNetwork` joins two
end points by two FIFO channels that may drop packets; every packet carries, beside its 15-bit numbers,
the true unbounded ones, which no handler reads. From there:

- `LinkNetwork` proves prefix delivery and that the modular tests agree with the true order;
- `LinkAlias` proves that the window bound this needs, `k` at most 32766, is exact: `k` + 1 frames may be
  outstanding because the test is made before the counter moves;
- `LinkLossless` and `LinkWindow` treat channels that lose nothing: no genuine frame is refused, and the
  send window never stays shut exactly if the peer's `w` is at most `k` + 1 and its `k` at most 32766, or
  the window is too wide to refuse anything;
- both of these bounds are proved from the moment a master and a slave are connected (`LinkStart`);
- `LinkReplies` states with the codes of the standard which command is answered by which, over whole runs,
  and when data and acknowledgements go out;
- `LinkReceive` and `EndToEnd` join the link layer with its codecs, and `ByteNetwork` puts bytes in the
  channels: writes may be lost, and a reader gets any number of them at once.

**The codecs.** `ApduFrame` is the APCI framing and the stream it is read from. `AsduElements`,
`AsduObjects` and `IecAsdu` are the table-driven ASDU codec with its 23 types. `DltFrame` and `LpduFrame` are
the checksummed frames of DL/T 645 and FT1.2. `Bytes` and `Bcd` are the arithmetic below them. For each of
the four formats the bytes are spelt out once more with the numbers of the standards (`ApduFrame.Reads`,
`AsduMeaning`, `DltFrame.Spells`, `LpduFrame.Spells`), and the parser is proved to accept and deliver just that.

**The DL/T 645 master.** `DltReassembly` puts frames together from chunks, `DltCollector` goes round
the devices, asks each for its data and tells it the time, and `DltMaster` joins the two: they share the
request timer.

**Two stand-alone cores.** `LogDb` and `LogQuery` are export, cleanup and query of the log databases, the
B-tree being a sequence in key order. `RingFifo` is the ring buffer between processes.

Throughout, the functions say what the code computes, the methods carry the loops and in-place updates
of the source and are proved against those functions, and the lemmas prove what the functions are good for.

Where the code differs from what one would expect, the model follows the code, and the difference is
stated as a lemma:

- A window of 32767 or more lets numbers wrap onto themselves (`LinkAlias.Aliases`); even if nothing is lost,
  the end that has it can then refuse every frame of the other one (`LinkWindow.StuckByWrap`).
- A slave that confirms a stop has left the started state before it tries to acknowledge, so its
  acknowledgement never goes out (`LinkRun.StopAcknowledgesIff`).
- A frame with more than 251 bytes of data goes out with a length byte that is cut off, and its data never
  arrive (`ApduFrame.SurvivesIff`, `ApduFrame.MislabelledNeverFound`); an APDU stream read in two pieces
  loses the frame that the cut goes through (`ApduFrame.CutPreservesIff`).
- An ASDU with the SQ flag set and a protocol other than IEC 101 or 104 is built without the flag in its
  header, so several units do not parse again; nor do more than 127 units (`IecAsdu.RoundTripIff`).
- With the SQ flag set and no unit, or with a field longer than the code can write, build leaves bytes of
  its buffer unset (`IecAsdu.BuildFillsIff`).
- An SQ run may count identifiers past the end of the object address (`IecAsdu.ParseNormalisesIff`).
- The condition `ret == 0 || DB_NOTFOUND` in the export is always true, so a write that fails after the
  first one moves the export time all the same, and the rest is never exported (`LogDb.NothingLostIff`).
- A query interval longer than the asked time hides the first records (`LogQuery.QueryOptimalIff`).
- A late or oversized chunk stops the request timer without going on, and a request that the lower layer
  does not take is not repeated (`DltCollector.StallsIff`, `DltCollector.OpeningStallsIff`). After either,
  collection stands still until a device's time synchronisation falls due or a device connects, and goes
  on at the alarm after that (`DltCollector.StalledUntilSync`, `DltCollector.ConnectResumes`); with no
  synchronisation timer running it stands still until then for good (`DltCollector.StalledForever`).
- A collection that is stopped and started again while an answer is awaited passes over the first request
  (`DltCollector.StartBegins`).
- A time synchronisation remembers the collection timer in 8 bits, so that after one between two rounds
  the next round starts at the next alarm, not when its period is over (`DltCollector.SyncStartsEarly`).
- A DL/T 645 frame with more than 245 bytes of data is never parsed: the checksum loop does not end
  (`DltReassembly.NeverReturnsIff`), and one such chunk in place of an answer hangs the master
  (`DltMaster.HangReached`).
- A record that comes in the same second as an export, or is stamped earlier, is never exported
  (`LogDb.AddedExportedIff`).
- A frame that stands in front of the end of a ring that has wrapped cannot be taken, and a request for more
  bytes than the ring holds can give out old ones (`RingFifo.GetTakesIff`, `RingFifo.GetBeyondIff`).
- A frame that exactly fills the ring lets the next read return more than the ring holds
  (`RingFifo.TooMuchIff`, `RingFifo.OverfullReached`).
- A parsed single character frame cannot be built again (`LpduFrame.ParsedSingleNotBuilt`).

## Model

| member | source | states |
|---|---|---|
| LinkLayer.EndPoint.constructor | unitlinks/src/iec104.c:297-324 | A new end point is stopped, its four counters are 0, and nothing is on the wire. |
| LinkLayer.EndPoint.Reset | unitlinks/src/iec104.c:327-342 | Counters and state go back to their initial values; host type, window parameters and wire stay. |
| LinkLayer.EndPoint.FrameSend | unitlinks/src/iec104.c:874-910 | The bytes of a frame, length byte cut to 8 bits, reach the wire exactly when the frame can be built and the lower layer takes it. |
| LinkLayer.EndPoint.FrameSSend | unitlinks/src/iec104.c:1143-1182 | An S frame with N(R) = vr goes out only if something is unacknowledged and the end point may send; only then `ar` becomes vr. |
| LinkLayer.EndPoint.FrameISend | unitlinks/src/iec104.c:1208-1273 | An I frame with the present counters goes out only within the window and with data, and only then vs counts up modulo 2^15. |
| LinkLayer.EndPoint.FrameUSend | unitlinks/src/iec104.c:969-1031 | A stop request or confirmation first tries to acknowledge all received frames; the result is the fate of the command alone. |
| LinkLayer.EndPoint.FrameURecv | unitlinks/src/iec104.c:1034-1140 | Start, stop and test commands: which host answers, what state it ends in, also when the answer does not go out. |
| LinkLayer.EndPoint.FrameSRecv | unitlinks/src/iec104.c:1185-1205 | N(R) is taken exactly if it passes the modular window test. |
| LinkLayer.EndPoint.FrameIRecv | unitlinks/src/iec104.c:1276-1355 | Either number out of order: acknowledge, ask for a re-connect, accept nothing; otherwise take N(R), the payload, and acknowledge when `w` frames are due. |
| LinkLayer.EndPoint.TakePayload | unitlinks/src/iec104.c:1315-1345 | vr counts up only if the payload parses; a slave answers interrogation and clock synchronisation. |
| LinkLayer.EndPoint.FrameRecv | unitlinks/src/iec104.c:941-960 | One received frame has the effect of exactly one of the three handlers. |
| LinkShape.RecvReacts | unitlinks/src/iec104.c:1034-1355 | Whatever frame arrives: a payload is accepted exactly if both numbers are right and it parses; a re-connect is asked for exactly if a number of an I frame is wrong; every frame sent carries the true counters and moves just its own. |
| LinkShape.LocalSendsFrom | unitlinks/src/iec104.c:190-254 | No timer or request moves a counter other than by sending the frame that goes with it. |
| LinkShape.UpMessages | unitlinks/src/iec104.c:1034-1355 | At most one message goes to the upper level per event; of an accepted payload a slave tells an interrogation and a clock synchronisation as such, either host any other one as the ASDU it is, and nothing else is told but the start of data transfer. |
| LinkRun.RunHealthy | unitlinks/src/iec104.c:1185-1355 | In every run of one end point all counters stay below 2^15 and at most `k` + 1 frames are unacknowledged. |
| LinkRun.IRecvAcknowledges | unitlinks/src/iec104.c:1347-1350 | After any I frame an end point that may send owes fewer than max(w, 1) acknowledgements. |
| LinkRun.RunAcknowledges | unitlinks/src/iec104.c:1143-1355 | A master whose S frames are taken owes fewer than max(w, 1) acknowledgements throughout every run. |
| LinkRun.SlaveStartedIff | unitlinks/src/iec104.c:969-1140 | A slave is in the started state exactly if it confirmed a start with nothing ending it since. |
| LinkRun.SlaveGating | unitlinks/src/iec104.c:969-1273 | Every I or S frame of a slave comes after a start it confirmed, with no stop request, reset or unconfirmed start in between. |
| LinkRun.StopAcknowledgesIff | unitlinks/src/iec104.c:976-1107 | A stop command that goes out has everything received acknowledged before it exactly if nothing was owed or an end point that may send asks for the stop; never when a slave that owes something confirms one. |
| LinkReplies.TestTaken | unitlinks/src/iec104.c:1111-1128 | A test request (0x40) is answered with 0x80 exactly if the lower layer takes it, a confirmation with nothing; no field changes. |
| LinkReplies.StartTaken | unitlinks/src/iec104.c:1040-1062 | A slave answers 0x04 with 0x08 and tells its upper level; it is started exactly if the answer goes out. A master ignores it. |
| LinkReplies.StopTaken | unitlinks/src/iec104.c:1086-1099 | A slave answers 0x10 with 0x20 and is stopped exactly if the answer goes out. A master ignores it. |
| LinkReplies.ConfirmationTaken | unitlinks/src/iec104.c:1064-1109 | 0x08 starts a master, which tells its upper level and sends its clock synchronisation; 0x20 stops it. A slave ignores both. |
| LinkReplies.Restarts | unitlinks/src/iec104.c:327-342 | A connection that comes up, goes down or is asked for anew leaves all counters 0 and the end point stopped, a connected master with its start request sent. |
| LinkReplies.StopRequested | unitlinks/src/iec104.c:591-619 | A master that closes or quits asks for the stop behind an acknowledgement of what it owes, and counts as stopping in any case. |
| LinkReplies.RunCommands | unitlinks/src/iec104.c:190-1140 | In every run the commands sent are exactly those the stimuli call for, in order, whatever the state and the counters. |
| LinkReplies.RequestsAnswered | unitlinks/src/iec104.c:1034-1140 | In every run with a working lower layer as many test confirmations are sent as test requests received, and by a slave as many start and stop confirmations as requests. |
| LinkReplies.RequestResult | unitlinks/src/iec104.c:969-1273 | A request succeeds exactly if its frame goes out; having no ASDU to send is an error of its own. |
| LinkReplies.RecvResult | unitlinks/src/iec104.c:1034-1355 | Unknown commands and wrong numbers are errors, a payload that does not parse gives its own, anything else succeeds. |
| LinkReplies.DataSent | unitlinks/src/iec104.c:1208-1273 | An ASDU goes out exactly if the end point may send, the window of k + 1 frames is open, it has data and is taken. |
| LinkReplies.CommandReplied | unitlinks/src/iec104.c:1323-1345 | A slave, and no master, answers an interrogation or clock synchronisation with its reply, numbered and acknowledging as any other data. |
| LinkReplies.AcknowledgedIff | unitlinks/src/iec104.c:1347-1350 | An accepted I frame is acknowledged at once exactly if max(w, 1) frames are then unacknowledged. |
| LinkReplies.AcknowledgedNow | unitlinks/src/iec104.c:1143-1305 | The acknowledgement timer and a frame with a wrong number acknowledge everything received, if there is anything. |
| LinkNetwork.RecvNumExact | unitlinks/src/iec104.c:1447-1456 | check_recv_num accepts exactly the true numbers from `as` to vs, of all within 2^15 of them. |
| LinkNetwork.SendNumExact | unitlinks/src/iec104.c:1435-1445 | check_send_num accepts exactly the true next number, of all that can be under way. |
| LinkNetwork.RunInv | unitlinks/src/iec104.c:1143-1355 | In every reachable state over lossy channels the 15-bit counters abbreviate the true ones and all packets under way are true and in order. |
| LinkNetwork.RunFits | unitlinks/src/iec104.c:969-1273 | In every reachable state all frames under way fit the wire format, if the payloads offered have 1 to 251 bytes. |
| LinkNetwork.PrefixDelivery | unitlinks/src/iec104.c:1208-1355 | For payloads of 1 to 251 bytes: every packet under way fits the wire, what each end accepted is a prefix of what the other sent, at most `k` + 1 payloads are unacknowledged, and nothing is acknowledged that was not accepted. |
| LinkNetwork.NoAliasing | unitlinks/src/iec104.c:1276-1355 | However many packets were lost, the oldest one under way is accepted exactly if it is the true next one, and no genuine N(R) is ever refused. |
| LinkAlias.Aliases | unitlinks/src/iec104.c:1238 | With k of 32767 or more there is a run, once data transfer is started, in which a frame is accepted in place of another. |
| LinkStart.StartupOpens | unitlinks/src/iec104.c:969-1140 | From the state a connection leaves a master and a slave in, two deliveries start the data transfer on both sides. |
| LinkAlias.SafeIffNarrow | unitlinks/src/iec104.c:1238 | From the connection of a master and a slave on, prefix delivery of payloads that fit a frame holds in every run if and only if both windows are at most 32766. |
| LinkLossless.RunGapless | unitlinks/src/iec104.c:1208-1355 | Over lossless channels and with payloads of 1 to 251 bytes that parse, the I frames under way are exactly the numbers not yet accepted, without a gap, and fit the wire. |
| LinkLossless.NothingRefused | unitlinks/src/iec104.c:1435-1456 | Under the same conditions sent = accepted + under way in every run however long, and no frame that arrives is refused. |
| LinkWindow.RunPrompt | unitlinks/src/iec104.c:1347-1350 | A receiver that may send whenever an I frame reaches it owes fewer than max(w, 1) acknowledgements, and its last one is known to the peer or under way. |
| LinkWindow.EmptyChannelsOpenWindow | unitlinks/src/iec104.c:1238 | Once both lossless channels are empty the sender's window test passes, with no timer, if w <= k + 1. |
| LinkWindow.NeverStuckIff | unitlinks/src/iec104.c:1238-1350 | From the connection of a master and a slave on, and in the runs in which the peer may send whenever an I frame reaches it, the window of one end never stays shut over empty lossless channels if and only if its k is at least 32767, where the test passes for any counters, or the peer has w <= k + 1 and a window of at most 32766 of its own. |
| LinkWindow.StuckByWrap | unitlinks/src/iec104.c:1276-1456 | A peer whose own window is 32767 or more can refuse every frame for its N(R), though nothing is lost, and leave the window shut. |
| LinkWindow.WideOpen | unitlinks/src/iec104.c:1238 | With k of 32767 or more the window test passes in every reachable state, whatever is lost. |
| LinkReceive.FrameRecvBuffer | unitlinks/src/iec104.c:913-966 | The receive loop handles exactly the frames of the buffer, in order, on any bytes, and nothing else goes out or up. |
| ApduFrame.WireParses | unitlinks/src/iec104.c:926-963 | The receive loop recovers the frames that were written one behind the other. |
| ByteNetwork.ChunkDelivers | unitlinks/src/iec104.c:913-966 | Frames received as one chunk have the effect of the same frames delivered one by one: counters, payloads and answers. |
| ByteNetwork.RunSame | unitlinks/src/iec104.c:874-966 | Every run of two end points over bytes, read any number of writes at a time, is a run over frames, if the payloads have 1 to 251 bytes. |
| ByteNetwork.BytesDelivered | unitlinks/src/iec104.c:874-1355 | Over bytes that may be lost write by write, the ASDUs each end parses are the first of those the other built and sent, in order, none twice; and all of them once nothing lost has left nothing to read. |
| ByteNetwork.RunInforms | unitlinks/src/iec104.c:913-1405 | In every run the upper level of an end point is told exactly what the accepted ASDUs mean, in order: each ASDU to be processed and, of a slave, each interrogation and clock synchronisation as such. |
| ByteNetwork.ToldByType | unitlinks/src/iec104.c:1315-1345 | A slave tells an accepted ASDU of type 100 as a general interrogation and one of type 103 as a time synchronisation; a master tells neither; any other type goes up as it is. |
| EndToEnd.AsdusDelivered | unitlinks/src/iec104.c:1208-1355 | Over lossy channels the ASDUs of 1 to 251 bytes each end parses are the first of those the other built and sent, in order, none twice. |
| EndToEnd.AllAsdusDelivered | unitlinks/src/iec104.c:1208-1355 | Over lossless channels that have run empty all ASDUs of 1 to 251 bytes that were sent have been parsed. |
| ApduFrame.ParseBuffer | unitlinks/src/apdu_frame.c:113-189 | Code, offset and frame on any buffer, as the scan and the control field bits decide. |
| ApduFrame.PutControl | unitlinks/src/apdu_frame.c:82-110 | The four control field bytes of each format, and nothing else in the buffer. |
| ApduFrame.BuildBuffer | unitlinks/src/apdu_frame.c:192-227 | The new buffer holds start byte, length, control field and data; an I frame without data is refused. |
| ApduFrame.ParseAdvances | unitlinks/src/apdu_frame.c:113-189 | On arbitrary bytes every parse moves the offset forward and not past the end. |
| ApduFrame.ParsedIff | unitlinks/src/apdu_frame.c:113-189 | The parser accepts exactly the bytes of a frame, stated byte by byte, behind bytes other than 0x68, and delivers that frame. |
| ApduFrame.RefusedWith | unitlinks/src/apdu_frame.c:113-189 | Anything else is refused as too short, with the offset behind the start byte or at the end. |
| ApduFrame.BuildSpells | unitlinks/src/apdu_frame.c:82-227 | Every byte that is built, for any fields: 0x68, the length modulo 256, doubled numbers, format bits, data. |
| ApduFrame.ParseUndoesBuild | unitlinks/src/apdu_frame.c:53-227 | A built frame, behind start-free garbage and before anything, parses back to itself. |
| ApduFrame.ParseAllStream | unitlinks/src/iec104.c:926-963 | The loop finds exactly the frames of a stream, in order, whatever start-free bytes lie between them. |
| ApduFrame.SurvivesIff | unitlinks/src/apdu_frame.c:113-227 | Written and read alone, a frame is found again exactly if its numbers have 15 bits, its command leaves the low two bits clear, and its data have 1 to 251 or at least 65532 bytes. |
| ApduFrame.MislabelledNeverFound | unitlinks/src/apdu_frame.c:135-213 | Whatever the receiver finds in the bytes of a frame with any other length of data, it is not these data. |
| ApduFrame.CutKeepsWhole | unitlinks/src/iec104.c:926-963 | A stream cut anywhere gives exactly the frames that lie wholly before the cut. |
| ApduFrame.CutPreservesIff | unitlinks/src/iec104.c:926-963 | A stream received in two pieces gives the same frames if and only if it was cut between two of them. |
| Scanning.FindStart | unitlinks/src/apdu_frame.c:120-128 | The offset behind the first start byte, or the end of the buffer. |
| AsduElements.TableSizes | unitlinks/src/iec_asdu.c:614-668 | For every type of the table, its parse and build functions advance by the table's size. |
| AsduElements.PutTime | unitlinks/src/iec_asdu.c:179-203 | The seven CP56Time2a bytes, and nothing else in the buffer. |
| AsduElements.TimeRoundTrip | unitlinks/src/iec_asdu.c:153-203 | CP56Time2a fields in range survive the wire. |
| AsduElements.PutElement | unitlinks/src/iec_asdu.c:206-559 | The bytes of one element of any type, and the offset behind it. |
| AsduElements.ElementRoundTrip | unitlinks/src/iec_asdu.c:206-559 | For every type an element in range parses back to itself. |
| AsduElements.ParsedElementInRange | unitlinks/src/iec_asdu.c:206-559 | Whatever bytes are parsed, the element is in the range of its type. |
| AsduObjects.AddressRoundTrip | unitlinks/src/iec_asdu.c:42-104 | An object address that fits its 1 to 4 bytes reads back as written. |
| AsduObjects.ObjectsRoundTrip | unitlinks/src/iec_asdu.c:694-763 | A run of elements reads back as written, each behind its address or all behind the first one. |
| AsduObjects.ParsedConsecutive | unitlinks/src/iec_asdu.c:694-714 | Under the SQ flag the identifiers read count up by one. |
| AsduObjects.PutAddress | unitlinks/src/iec_asdu.c:76-104 | The low bytes of the address, or nothing for more than 4 bytes, and the offset behind them. |
| AsduObjects.PutObjects | unitlinks/src/iec_asdu.c:751-763 | The build loop writes exactly the objects' bytes and ends where the computed length says. |
| AsduObjects.GetObjects | unitlinks/src/iec_asdu.c:694-714 | The parse loop delivers the objects the bytes stand for. |
| IecAsdu.BuildFillsIff | unitlinks/src/iec_asdu.c:29-39 | With any field lengths build never writes past the length computed beforehand, and fills it exactly unless a field that is there is longer than the code can write, or the SQ flag is set on no unit. |
| IecAsdu.BuildBuffer | unitlinks/src/iec_asdu.c:724-766 | Codes for a null structure or data pointer, missing lengths and unknown types; else a buffer of the computed length that begins with header and objects, also for no unit. |
| IecAsdu.ParseBuffer | unitlinks/src/iec_asdu.c:671-721 | Codes for short buffers and unknown types; else header fields and objects. |
| IecAsdu.ParseUndoesBuild | unitlinks/src/iec_asdu.c:671-766 | Parsing undoes building for 0 to 127 units, both SQ modes and every type, if the fields fit. |
| IecAsdu.RoundTripIff | unitlinks/src/iec_asdu.c:585-766 | An ASDU whose fields fit survives exactly if it has at most 127 units and its SQ run, if any, is consecutive and either at most one unit or sent with a protocol that carries the flag. |
| IecAsdu.ParsedFits | unitlinks/src/iec_asdu.c:562-721 | An accepted ASDU with fitting identifiers can be sent again as it is. |
| IecAsdu.ParseNormalises | unitlinks/src/iec_asdu.c:671-766 | Building a parsed ASDU and parsing again gives the same ASDU, whether or not the input used SQ. |
| IecAsdu.ParseNormalisesIff | unitlinks/src/iec_asdu.c:671-766 | It does so, with units or without, exactly if all identifiers fit the object address. |
| AsduMeaning.KnownIff | unitlinks/src/iec_asdu.c:614-668 | The table knows exactly 23 type numbers, each with its element size. |
| AsduMeaning.AcceptedIff | unitlinks/src/iec_asdu.c:671-690 | Exactly which buffers are incorrect, unknown or accepted, for any field lengths. |
| AsduMeaning.ElementMeans | unitlinks/src/iec_asdu.c:206-559 | For each type number: which bits and bytes are the value, its kind, the qualifier and the time tag. |
| AsduMeaning.ParsedMeans | unitlinks/src/iec_asdu.c:562-721 | An accepted ASDU has the header its bytes state and as many units, each with the meaning and the identifier of its bytes, in single objects and in runs. |
| AsduMeaning.LongAddresses | unitlinks/src/iec_asdu.c:42-73 | Addresses of more than four bytes read as 0. |
| AsduMeaning.BuildCodes | unitlinks/src/iec_asdu.c:724-739 | Exactly which ASDUs are incorrect, unknown or built. |
| AsduMeaning.BuiltMeans | unitlinks/src/iec_asdu.c:585-766 | The bytes built for an ASDU that fits: type, count and flag, cause and flags, zero originator, address, and elements that mean the units. |
| Bytes.FromToLe | common/p_num.c:36-171 | A little-endian number that fits its bytes reads back as written. |
| Bytes.ToFromLe | common/p_num.c:36-171 | Bytes read as a number and written again are unchanged, and the number fits them. |
| Bytes.ToLeAt | common/p_num.c:113-171 | Byte i is digit i of the number to the base 256. |
| Bytes.PutLe | common/p_num.c:113-171 | The low bytes of the number at the offset, and nothing else in the buffer. |
| Bcd.CheckBuffer | common/p_num.c:212-226 | True exactly if both halves of every byte are decimal digits. |
| Bcd.GetBuffer | common/p_num.c:229-246 | The decimal number, or 0 for more than 8 bytes or other bytes; the running sum stays within 64 bits. |
| Bcd.PutBuffer | common/p_num.c:260-274 | The lowest digits of the number, or nothing for more than 8 bytes. |
| Bcd.GetPut | common/p_num.c:212-274 | What is written passes the check and reads back as the number modulo 100^len. |
| Bcd.PutGetIff | common/p_num.c:212-274 | Writing back what was read restores a buffer if and only if it was decimal. |
| Bcd.PutAt | common/p_num.c:260-274 | Byte i carries the decimal digits 2i and 2i + 1, the lower one in its low half. |
| Bcd.GetAt | common/p_num.c:229-246 | The digits of the number read are the halves of the bytes; more than 8 bytes and other bytes read as 0. |
| Bcd.GetBound | common/p_num.c:229-246 | A number read from len bytes is below 100^len and below 10^16. |
| Checksum.FcsUpdate | unitlinks/src/dlt_frame.c:31-45 | Changing one byte changes the checksum if and only if the byte really differs. |
| Checksum.GetFcs | unitlinks/src/lpdu_frame.c:46-60 | The loop's running sum is the sum of the bytes modulo 256. |
| DltFrame.ParseBuffer | unitlinks/src/dlt_frame.c:102-193 | Code, offset and frame on any buffer whose checksum loop ends. |
| DltFrame.BuildBuffer | unitlinks/src/dlt_frame.c:196-255 | A new buffer with start bytes, address, control field, shifted data, checksum and stop byte. |
| DltFrame.ParseUndoesBuild | unitlinks/src/dlt_frame.c:77-255 | A built frame, behind start-free garbage and before anything, parses back to its fields. |
| DltFrame.ParsedIff | unitlinks/src/dlt_frame.c:102-193 | The parser accepts exactly the bytes that spell a frame of at most 245 bytes of data behind bytes other than 0x68, and delivers that frame. |
| DltFrame.BuildSpells | unitlinks/src/dlt_frame.c:196-255 | What is built spells the frame: 0x68, address, 0x68, control bits, length, data plus 0x33, sum, 0x16. |
| DltFrame.AddressReceived | unitlinks/src/dlt_frame.c:123-223 | The address comes back in the reading it was set in, as a number or as a decimal. |
| DltFrame.CorruptionDetected | unitlinks/src/dlt_frame.c:102-193 | Changing any one byte but the first start byte and the length makes parsing fail, with the code the changed byte calls for. |
| DltFrame.ProtectedIff | unitlinks/src/dlt_frame.c:102-193 | Every change of the byte at a position is refused, in all frames and surroundings, if and only if it is neither the first start byte nor the length byte. |
| DltFrame.LengthUnprotected | unitlinks/src/dlt_frame.c:102-193 | In any frame of at most 243 bytes of data the length byte can be changed so that, with the right bytes behind it, another frame is read. |
| DltFrame.PrefixRefused | unitlinks/src/dlt_frame.c:102-172 | No proper prefix of a frame parses; each gives LenInvalid. |
| LpduFrame.ParseBuffer | unitlinks/src/lpdu_frame.c:438-478 | Code, offset and frame on any buffer on which the source's behaviour is defined. |
| LpduFrame.Ft12Buffer | unitlinks/src/lpdu_frame.c:192-312 | The three FT1.2 formats behind their start bytes. |
| LpduFrame.BuildBuffer | unitlinks/src/lpdu_frame.c:315-435 | A new buffer per format, for any address length; empty variable frames and single characters without their byte are refused. |
| LpduFrame.NoneStarts | unitlinks/src/lpdu_frame.c:438-478 | Bytes none of which starts a supported frame: unsupported or unknown, as the last one decides. |
| LpduFrame.PrefixTaken | unitlinks/src/lpdu_frame.c:192-270 | A frame that is cut off is answered with LenInvalid, but of a variable frame with fewer than four bytes there the source reads behind its buffer. |
| LpduFrame.LongAddress | unitlinks/src/lpdu_frame.c:192-290 | With address lengths above 2 the frame ends that much earlier and its checksum starts that much before the control field. |
| LpduFrame.ControlRoundTrip | unitlinks/src/lpdu_frame.c:92-143 | The control field survives for both directions, whose bits 4 and 5 mean different things. |
| LpduFrame.ParseUndoesBuild | unitlinks/src/lpdu_frame.c:192-435 | A built frame of any format, behind start-free garbage and before anything, parses back to its fields. |
| LpduFrame.ParsedIff | unitlinks/src/lpdu_frame.c:192-478 | With address lengths of 0 to 2 the parser accepts exactly the bytes that spell a frame of one of the three formats behind bytes that start none, and delivers that frame. |
| LpduFrame.BuildSpells | unitlinks/src/lpdu_frame.c:315-435 | What is built spells the frame, control bits, lengths, sum and stop byte included. |
| LpduFrame.VarCorruptionDetected | unitlinks/src/lpdu_frame.c:192-263 | Changing any one byte but the first of a variable frame makes parsing fail, with the code the changed byte calls for. |
| LpduFrame.FixCorruptionDetected | unitlinks/src/lpdu_frame.c:265-290 | Changing any one byte but the first of a fixed frame makes parsing fail. |
| LpduFrame.ChangesRefusedIff | unitlinks/src/lpdu_frame.c:192-303 | Behind start-free garbage, every change of the byte at a position is refused if and only if it is not the first byte. |
| LpduFrame.ParsedSingleNotBuilt | unitlinks/src/lpdu_frame.c:292-427 | A single character frame that was parsed is refused by build. |
| DltReassembly.Receiver.constructor | unitlinks/src/dlt645.c:19-22 | An empty receive buffer with the request timer off. |
| DltReassembly.Receiver.FrameRecv | unitlinks/src/dlt645.c:904-962 | Late or oversized chunks reset the receiver, chunks of other devices are ignored, others are appended and the whole is parsed; a frame ends the wait. |
| DltReassembly.ChunkTaken | unitlinks/src/dlt645.c:904-962 | Late chunks and more than 512 bytes drop everything, chunks of other devices are ignored, others are kept until they hold a frame. |
| DltReassembly.NeverReturnsIff | unitlinks/src/dlt645.c:904-962 | The source does not return from a chunk if and only if it is in time, fits and comes from the device that was asked, and the bytes received so far hold, from their first start byte on, a whole frame of more than 245 bytes of data. |
| DltReassembly.AnySplitDelivers | unitlinks/src/dlt645.c:904-962 | However start-free garbage and a frame are cut into timely chunks, all before the completing one are kept with LenInvalid and the completing one delivers the frame. |
| DltCollector.Collector.ReadDataSend | unitlinks/src/dlt645.c:1088-1185 | A request is refused while an answer is awaited; one that goes out starts the request timer, one that does not stops it. |
| DltCollector.Collector.CollectData | unitlinks/src/dlt645.c:539-611 | The recursion ends and has the effect of the collection step. |
| DltCollector.Collector.TimeSyncSend | unitlinks/src/dlt645.c:1367-1445 | Refused while an answer is awaited; otherwise the device's synchronisation timer restarts and the collection timer is restored from 8 bits, or set to be due if it was off. |
| DltCollector.Collector.ConnectAck | unitlinks/src/dlt645.c:757-775 | The device becomes ready and is told the time, with what that does to the collection timer. |
| DltCollector.Collector.CatchAlarm | unitlinks/src/dlt645.c:176-239 | A request timeout gives up the device, the collection timer starts a round, and every device whose synchronisation is due is told the time. |
| DltCollector.Collector.FrameRecv | unitlinks/src/dlt645.c:912-1004 | A chunk marked late or oversized stops the request timer; one marked as completing a frame goes on with the collection. |
| DltCollector.Collector.StartCollection | unitlinks/src/dlt645.c:683-697 | A stopped collection begins at once; one that runs is left alone. |
| DltCollector.Collector.StopCollection | unitlinks/src/dlt645.c:699-710 | The collection is stopped with timer off and indices reset; a request that is out stays awaited. |
| DltCollector.StoppedSilent | unitlinks/src/dlt645.c:176-1010 | While the collection is stopped nothing is asked, whatever arrives or expires. |
| DltCollector.StartBegins | unitlinks/src/dlt645.c:539-710 | Stopped and started again, a collection asks the first request of all, or, while an answer is awaited, passes it over for good and goes on behind it. |
| DltCollector.ConnectedAsked | unitlinks/src/dlt645.c:539-775 | A device that connects is asked for all its identifiers from then on, and no other one is asked more or less. |
| DltCollector.SyncTimers | unitlinks/src/dlt645.c:1367-1445 | What telling the time does to both timers, in seconds: refused while an answer is awaited, else the lowest 8 bits or due at once. |
| DltCollector.CollectTakes | unitlinks/src/dlt645.c:539-611 | A collection step asks for the first identifier left, over unused slots and devices that are not ready - if the request is not taken no timer runs - or else ends the round and arms the timer. |
| DltCollector.HandleTakes | unitlinks/src/dlt645.c:176-214 | Time synchronisation aside: an answer takes the next request, a timeout drops the rest of the device first, whether or not the request is taken; nothing else but a late or oversized chunk has an effect during a round. |
| DltCollector.TickTakes | unitlinks/src/dlt645.c:176-239 | The same with time synchronisation, as long as requests are taken: telling devices the time never disturbs a round. |
| DltCollector.MixedRound | unitlinks/src/dlt645.c:176-611 | Under any mix of answers and timeouts every ready device with identifiers is asked for a nonempty beginning of them, in slot order, nothing twice. |
| DltCollector.RoundEnds | unitlinks/src/dlt645.c:539-611 | As many answers and timeouts as there are requests end the round, with indices (-1, -1) and the collection timer armed. |
| DltCollector.AnsweredRound | unitlinks/src/dlt645.c:539-611 | With every request answered the round sends exactly the identifiers of all ready devices in slot order, each once, and ends exactly with the last answer. |
| DltCollector.AskedIff | unitlinks/src/dlt645.c:539-611 | The requests of a round ask each ready device of the 128 slots for each of its identifiers, and nothing else. |
| DltCollector.StallsIff | unitlinks/src/dlt645.c:176-1179 | While an answer is awaited, exactly two things leave no timer running: a late or oversized chunk, and a next request that is not taken, unless the alarm that finds this also tells a device the time. |
| DltCollector.OpeningStallsIff | unitlinks/src/dlt645.c:204-224 | The alarm that opens a round leaves no timer running exactly if there is a request, it is not taken, and no device is to be told the time. |
| DltCollector.StalledUntilSync | unitlinks/src/dlt645.c:176-1441 | With no timer running nothing changes until the first alarm at which a device is to be told the time; that alarm sends no request, and the next one takes the next request left or ends the round. |
| DltCollector.ConnectResumes | unitlinks/src/dlt645.c:757-1441 | A device that connects ends a stall in the same way. |
| DltCollector.StalledForever | unitlinks/src/dlt645.c:176-239 | With no timer running, those of the devices included, no chunk and no alarm ever changes anything again. |
| DltCollector.SyncStartsEarly | unitlinks/src/dlt645.c:1370-1437 | Between two rounds an alarm changes nothing unless it tells a device the time; then the next alarm starts the next round, whatever is left of the period. |
| DltMaster.Station.FrameRecv | unitlinks/src/dlt645.c:904-1010 | Bytes from the line: reassembly, dispatch by link address and function code, and the next step of the collection, with the shared request timer. |
| DltMaster.Station.CatchAlarm | unitlinks/src/dlt645.c:176-239 | The alarm with the receive buffer, which a request timeout and a request sent empty; the buffer stays empty while no answer is awaited. |
| DltMaster.DispatchIff | unitlinks/src/dlt645.c:960-996 | With distinct link addresses, a frame of the device that was asked gets to the handler of its function (0x11, 0x13, 0x17), and one of any other device or function to none. |
| DltMaster.StrangerRefused | unitlinks/src/dlt645.c:960-996 | A frame whose link address no device has is refused. |
| DltMaster.FeedRefines | unitlinks/src/dlt645.c:904-1010 | Every run of the master on bytes is a run of the collector, whatever bytes arrive, up to a chunk from which the source does not return. |
| DltMaster.HangsIff | unitlinks/src/dlt645.c:904-962 | A run hangs if and only if one of its chunks does in the state the ones before it leave. |
| DltMaster.HangReached | unitlinks/src/dlt645.c:904-962 | In every state in which an answer is awaited and nothing of it has come, one chunk of 258 bytes hangs the master for good. |
| DltMaster.ClockDrops | unitlinks/src/dlt645.c:176-239 | The alarm drops the bytes received so far exactly if a request goes out or its answer has not come in time. |
| DltMaster.RunExpects | unitlinks/src/dlt645.c:176-1179 | In every run on bytes, while an answer is awaited, bytes are kept of the device asked last alone, and every request goes out with nothing kept from before. |
| DltMaster.RoundOfBytes | unitlinks/src/dlt645.c:176-1010 | A round in which every request is answered by a frame in any timely chunks sends exactly the identifiers of all ready devices in slot order, each once, and ends with the receive buffer empty. |
| LogDb.Database.AddRecord | iec61850/log_db.c:376-455 | The record is added once and no other is lost, key order is kept, and it stands behind its equals. |
| LogDb.InsertPlaces | iec61850/log_db.c:376-455 | There is no other place in key order behind its equals. |
| LogDb.Database.InitTimer | iec61850/log_db.c:833-850 | The export timer starts at the stored export time, which is set first if there is none. |
| LogDb.Database.ExportData | iec61850/log_db.c:688-769 | The file holds the due records up to a failing write; the export time moves exactly if anything was written. |
| LogDb.Database.CleanOldData | iec61850/log_db.c:772-830 | Exactly the records not later than the cut less the storage depth are removed. |
| LogDb.Database.MaintainDatabase | iec61850/log_db.c:886-896 | Export, cleanup and the timer, once the export period is over. |
| LogDb.NothingLostIff | iec61850/log_db.c:724-830 | A maintenance call keeps or exports every later record, not both, if and only if no write fails, or the first one does and nothing due is old enough for cleanup. |
| LogDb.ExactlyOnce | iec61850/log_db.c:688-896 | Over any run in which write failures, if any, are safe ones, each record is in the export files as often as it was added later than the then stored export time if its time is in (first, last export time], otherwise not at all, and later ones are still in the database. |
| LogDb.ExactlyOnceFromStart | iec61850/log_db.c:688-896 | The same from the state the timer initialisation leaves, for all records then in the database or added later. |
| LogDb.AddedExportedIff | iec61850/log_db.c:376-769 | A record added once is exported at most once, and exactly then if its time is later than the stored export time when it comes and not later than the one stored in the end. |
| LogDb.RunTimer | iec61850/log_db.c:886-896 | In every run the export timer holds the time of the last call that was due, each being due a period after the one before. |
| LogDb.ExportsGoOn | iec61850/log_db.c:688-896 | Over any run from the timer initialisation with safe failures: calls before the next one is due change nothing, and once a due call's writes succeed every record added in time up to then is in the files as often as it was added, and no other. |
| LogDb.RunSorted | iec61850/log_db.c:376-455 | Key order stays time order over any run. |
| LogQuery.GetVars | iec61850/log_db.c:911-964 | Errors for no time, no number and unknown variables; else the values of the records the pass selects. |
| LogQuery.SampleOptimal | iec61850/log_db.c:941-956 | On all inputs the selection is a longest admissible one and each record in it the earliest possible, among those that start no earlier than the interval. |
| LogQuery.QueryOptimalIff | iec61850/log_db.c:941-956 | It is so from the asked time on if and only if no record of the address lies between the asked time and the interval. |
| RingFifo.Channel.constructor | common/multififo.c:267-276 | All three pointers start at the beginning of the ring. |
| RingFifo.Channel.ReadChannel | common/multififo.c:88-120 | Which cells the two reads fill, where the end pointer goes, and the count, or the two error codes. |
| RingFifo.Channel.GetFrame | common/multififo.c:165-188 | The frame across the end of the ring, and both begin pointers; or a refusal that changes nothing. |
| RingFifo.ReadThenGet | common/multififo.c:88-188 | From a ready ring, reading n in 1..32768 bytes and taking n yields exactly the bytes read and a ready ring. |
| RingFifo.TooMuchIff | common/multififo.c:88-169 | A call returns more than 32768 bytes exactly if the last frame filled the whole ring and more bytes wait than it holds; they are refused. |
| RingFifo.OverfullReached | common/multififo.c:88-188 | From a ready ring without a last frame, such as a fresh one, 32768 bytes and then more than 32768 bytes lead to such a refusal. |
| RingFifo.FaithfulIff | common/multififo.c:88-188 | Over any run the bytes taken are the bytes read, in order, if and only if no call finds more waiting than the ring holds right after a frame that filled it. |
| RingFifo.TailFree | common/multififo.c:96-104 | The first read is asked to end just before the oldest byte, or with the ring. |
| RingFifo.ReadQueuesIff | common/multififo.c:88-120 | With frames left in the ring, the bytes read are appended to them if and only if they fit. |
| RingFifo.GetTakesIff | common/multififo.c:165-188 | A frame that is in the ring is taken, and just it, if and only if it does not stand in front of the end of a ring that has wrapped. |
| RingFifo.GetBeyondIff | common/multififo.c:165-188 | Exactly when a request for more bytes than the ring holds is refused. |

## Left out

- Timers t0, t1, t2, t3 and rc of the link layer are not kept: an expiry is an event that may happen at any moment, so every run of the source is among those considered.
- One epoch is considered in `LinkNetwork`: it starts with both end points reset and no numbered frame under way. A re-connect resets the counters before the old socket is closed, so nothing is claimed across it.
- LinkLayer.EndPoint.FrameSend: whether the lower layer takes a frame is a parameter; sockets, pipes and processes are not modelled.
- LinkLayer.EndPoint.TakePayload: the ASDU a slave answers with is a parameter, because it depends on the clock; a clock synchronisation without a unit, for which the source reads past an empty array of units, is treated like any other.
- EndToEnd.AsdusDelivered: the mapping of identifiers between the ASDU parser and the upper level (`asdu_map_ids`) is not modelled.
- ByteNetwork.RunSame: a reader gets whole writes; what a cut through a frame does to the stream is stated by `ApduFrame.CutKeepsWhole` and `ApduFrame.CutPreservesIff`, not followed further into the network.
- AsduElements.TimeRoundTrip: time tags stay in their CP56Time2a fields; `localtime`, `mktime` and time zones are not modelled, nor are floats, which stay raw 32-bit words.
- Bytes.PutLe: the six put functions of different widths are one recursive method.
- IecAsdu.ParseUndoesBuild: field lengths of `GoodLens`; of longer fields nothing is written, and build leaves bytes of the buffer unset, by `IecAsdu.BuildFillsIff`.
- Allocation failures are not modelled; an allocation of no units returns a pointer, as that of the GNU C library does.
- LinkNetwork.PrefixDelivery: payloads of 1 to 251 bytes, those that fit a frame; `ApduFrame.SurvivesIff` and `ApduFrame.MislabelledNeverFound` say what becomes of others, short of lengths of 65532 and more, which no ASDU has.
- LinkAlias.SafeIffNarrow: in the runs that show the bounds to be exact, the clock synchronisation a master sends after the start is not sent.
- DltFrame.BuildBuffer: data of at most 245 bytes; with more the source's checksum loop never ends, which `DltFrame.Parse` gives as an outcome of its own.
- LpduFrame.ParseBuffer: user data lengths below the control field and address, variable frames cut off before their second start byte, and a checksum over bytes in front of the buffer make the source read outside it and are an outcome of their own.
- LpduFrame.ParseUndoesBuild: link addresses of 0 to 2 bytes, the lengths of the standard; `LpduFrame.LongAddress` says what becomes of longer ones.
- LpduFrame.BuildBuffer: at most 255 bytes under the checksum, whose loop never ends on more.
- Decimal numbers with a fraction (`buff_bcd_get_le_flt` and `buff_bcd_put_le_flt`) are left out.
- DltMaster.Station.FrameRecv: what the handlers do with a dispatched frame is left out, and the source's undefined look at the current slot when none was asked is excluded.
- DltCollector.Collector.ReadDataSend: building the request frame and finding its device by address are part of whether the lower layer takes it; other requests (address, baud rate) are left out.
- DltCollector.Collector.FrameRecv: whether a chunk fits and completes a frame is a flag here; `DltMaster.Station.FrameRecv` decides both on the bytes.
- DltCollector.Collector.TimeSyncSend: the frame that tells the time is not recorded, and nothing in the collection depends on whether the lower layer takes it.
- DltCollector.Collector.CatchAlarm: the re-connect timer of a device, which runs only while the device is neither ready nor told the time and then changes nothing here, and the loss of a connection, which makes a device not ready.
- DltCollector.StallsIff: the collection period and the request timeout are positive, and the clock, which counts seconds since 1970, is further on than a period and 256 seconds.
- DltCollector.MixedRound: rounds in which requests are taken, no chunk is late or oversized and no device comes or goes; what else stalls a round is stated by `DltCollector.StallsIff`, what ends a stall by `DltCollector.StalledUntilSync`.
- LogDb.Database.ExportData: records are kept in a sequence instead of a Berkeley DB B-tree; cursor errors, file names, mutexes and compaction are left out, and times are below 2^32 as in the keys.
- LogQuery.GetVars: the field index is a parameter in place of the look-up by name.
- RingFifo.Channel.ReadChannel: what the two reads bring is a parameter; strings and headers read from the ring, end-point handshakes and inotify events are left out.
- The M700 protocol, data unit remapping, configuration files, the user interface and the device drivers are left out: glue, or easier copies of what is here.

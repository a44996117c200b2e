# Verified model of the B-RTR router example

A Dafny 4.11 model of the logic this repository implements around the CAS BACnet Stack, with proofs.
`dafny verify dfyconfig.toml` checks the whole project.

| part | files | what is proved |
|---|---|---|
| Frame decoder | `TagHeaders`, `ObjectProperties`, `FrameDecoder`, `FrameEncoding`, `Truncation` | The tag and object/property readers accept exactly the octets of the Clause 20.2.1 grammar; every frame a sender may produce (Annex J.2, Clauses 6.2.2 and 20.1 of ANSI/ASHRAE 135) is decoded to what it says; cutting a frame short removes fields from the report but never changes one, with the exact exceptions. |
| Printers | `Texts`, `NameLookup`, `NameTables`, `CStrings`, `Summary`, `TruncatedSummary`, `SummaryReader`, `SummaryPrinter`, `Xml`, `XmlDump`, `DumpReader`, `XmlPrinter`, `FrameLog` | The one-line summary is a prefix of an ideal text in any buffer and loses only DADR digits in the log; an independent reader of that text finds in it what the decoder reports, by the right names and numbers; which frames are summarised as "?", and when a truncated frame is summarised unlike the whole, is characterised on their octets; the XML dump is one document that an independent reader takes back to its tree and from there to the decoded frame, with the right name beside each number; the binary search is the plain table lookup. |
| UDP dispatcher | `UdpTable`, `RoundRobin`, `UdpDispatcher` | No starvation with a concrete bound, conservation and order per socket down to the octets handed on, attribution, reply routing, what each set-up reports, and the table invariant over all runs. |
| Deferred restart | `DeferredRestart` | The timer refines the set of requests not yet served; a poll fires exactly when one of them is due. |
| Commandable outputs | `CommandableOutputs`, `OutputStation` | What the callbacks accept and store is judged by the commands' own numbers, what they answer is the command history and the device's properties; Present_Value resolved from the answers (Clause 19.2) is the outstanding command of highest priority and always legal. |

Each imperative method is proved against a function of its inputs or of the old state, and the results
about whole runs are lemmas about those functions. `DecodedFrame`, `RestartTimer`, `Dispatcher`,
`Commandable` and `Outputs` are classes updated in place, as the source's structs and file-level
variables are.

## Conventions

- Octets are integers below 256; the source's shifts and masks on disjoint bit ranges are `*`, `/` and `%`.
- Decoder offsets have a 32-bit type, so the verifier proves that none wraps for frames of up to 65535
  octets, the length every caller passes. A read-only frame is a sequence of exactly `frameLength`
  octets, so every index is proved to lie inside it; NULL behaves as the empty frame, since both are
  rejected before the first read.
- In `DecodedFrame` a flag and the value it guards are one optional field, and a pointer into the frame
  with its length is the slice they denote. Object type, object instance and property, which share one
  flag, are one optional field; the array index is another.
- The name tables are parameters. `Names.Valid` states what the proofs use of the shipped rows: both id
  tables strictly ascending, the longest name of each table (22 characters for object types, 35 for
  properties, 32, 34, 27, 33 and 28 for the others, 13 for ReadProperty and WriteProperty), no name with
  a space, `=`, `/`, `.`, `[` or a character XML reserves, and no name given to two network messages.
- A socket is the queue of datagrams waiting on it. Zero-length datagrams are part of the model: they
  are consumed and reported as nothing. A datagram longer than the buffer is cut to it, as POSIX does;
  on Windows `recvfrom` fails for it, so that it is lost and reported as nothing.
- The clock of the deferred restart is an argument of each call; deadlines are computed modulo 2^64.
- Real values are mathematical reals.

## Where the code and its documentation disagree

- `CASExampleHelper.h:259` says a truncated or malformed frame degrades to "?" rather than being
  mis-parsed. Exactly which frames are summarised as "?" is `TruncatedSummary.UnknownExact`. Other
  truncated frames are not, and of these a network message is summarised unlike the whole exactly when
  the cut takes its control octet, a message type other than 0, a DNET other than 0 or a station address
  (`TruncatedSummary.CutMessageExact`): without its type octet as type 0 (`TypeCut`), without its
  destination with DNET=0 (`DnetCut`), without its station address as a message to the whole network
  (`DadrCut`). A frame cut before its control octet is shown by its BVLC function (`BvlcCut`), and a cut
  PDU by a prefix of its own text, which says less but nothing else (`TruncatedSummary.CutPduExact`,
  `PduCut`).
- The comment on `PrintFrameAsXml` says the raw hex is always included. A frame that is not recognised is
  dumped without it (`DumpReader.DumpReadBack`, with two frames that are dumped alike in
  `DumpReader.UnrecognisedDump`).
- The decoder ignores sequence numbers, so a later segment of a ReadProperty or WriteProperty request or
  of a ReadProperty acknowledgement whose fragment opens like an object/property reference is reported
  as one (`FrameEncoding.LaterSegment`, `FrameEncoding.LaterSegmentMisread`).
- A receive that returns 0 is documented as "nothing to process"; with a zero-length datagram at the head
  of a queue, others may be waiting behind it (`RoundRobin.IdleExact`, `RoundRobin.ZeroLengthHidesNext`).
- A failed set-up of an instance that is already bound leaves it bound without a socket
  (`UdpTable.FailedRebind`).
- `RestartDue` fires at the deadline itself, not only after it.

## Model

| member | source | states |
|---|---|---|
| TagHeaders.ReadShapeExact | common/CASExampleHelper.cpp:1169-1227 | at any offset of any buffer a tag header is reported exactly when one of the ways of writing it stands there: sound, complete, and dependent on those octets only |
| TagHeaders.ReadLengthExact | common/CASExampleHelper.cpp:1187-1218 | the length/value/type part, against the in-octet, 1-, 2- and 4-octet length forms and opening/closing tags |
| TagHeaders.MinimalRoundTrip | common/CASExampleHelper.cpp:1169-1227 | for every tag number, class and length below 2^32 the shortest header is read back between any octets, with its own size as header length, and no other form is shorter |
| TagHeaders.ReadShapeExtends | common/CASExampleHelper.cpp:1169-1227 | a header read from a prefix is read identically from every extension |
| TagHeaders.NonMinimalAccepted | common/CASExampleHelper.cpp:1176-1218 | a seven-octet form of a short header is accepted with the same meaning, so the decoder is not injective |
| TagHeaders.BracketTags | common/CASExampleHelper.cpp:1186-1192 | a header is reported as an opening or a closing tag by the low four bits of its first octet, then without a length |
| TagHeaders.BooleanValueReadAsLength | common/CASExampleHelper.cpp:1193-1194 | anywhere in any buffer, the value bit of an application-tagged Boolean is reported as a length |
| TagHeaders.DecodeTagHeader | common/CASExampleHelper.cpp:1169-1227 | the decoder returns the header of the shape written at the offset, or nothing, without any offset wrapping |
| TagHeaders.DecodeTagNumber | common/CASExampleHelper.cpp:1169-1186 | its first half reports class and tag number, with the extension octet where there is one, and where they end |
| TagHeaders.DecodeTagLength | common/CASExampleHelper.cpp:1187-1218 | its length half reports form, length and end position of the length octets |
| ObjectProperties.ReadUnsignedExact | common/CASExampleHelper.cpp:1283-1310 | a context-tagged unsigned of 1 to 4 octets is reported exactly when a header for it and its big-endian value are written at the cursor |
| ObjectProperties.ReadWritingExact | common/CASExampleHelper.cpp:1281-1325 | an object/property reference with or without array index is reported exactly when one of its encodings stands at the cursor (and, without index, no context tag 2 follows) |
| ObjectProperties.ReadWritingIffGrammar | common/CASExampleHelper.cpp:1281-1311 | the flag is set if and only if tag 0 of length 4 and tag 1 of length 1 to 4 match at the cursor |
| ObjectProperties.Writing.Meaning | common/CASExampleHelper.cpp:1289-1312 | type below 2^10, instance below 2^22, and type * 2^22 + instance is the word read |
| ObjectProperties.PrescribedRoundTrip | common/CASExampleHelper.cpp:1281-1325 | the standard's encoding of any reference is recovered whatever follows under opening tag 3 |
| ObjectProperties.ReadExtends | common/CASExampleHelper.cpp:1281-1325 | what is reported on a prefix is reported with the same values on every extension |
| ObjectProperties.ReadSuffix | common/CASExampleHelper.cpp:1281-1325 | the reader depends on nothing before its cursor |
| FrameDecoder.ApduFieldsExact | common/CASExampleHelper.cpp:1403-1494 | for any octets, each field of an APDU is the octet at its place of Clause 20.1 as soon as the frame reaches it; only SimpleACK, Error, Reject and Abort wait with the invoke id for the octet after it |
| FrameDecoder.ReferenceIffGrammar | common/CASExampleHelper.cpp:1403-1460 | an APDU is reported with an object and property if and only if it is a ReadProperty or WriteProperty request or a ReadProperty acknowledgement and the reference grammar matches right after the service choice |
| FrameDecoder.DecodeUnsigned | common/CASExampleHelper.cpp:1283-1310 | header, checks and value loop report exactly the unsigned written at the position and where it ends |
| FrameDecoder.ReadValue | common/CASExampleHelper.cpp:1305-1309 | the shift loop computes the big-endian value of its octets without overflow |
| FrameDecoder.DecodeObjectAndProperty | common/CASExampleHelper.cpp:1281-1325 | overwrites the reference and the array index with what is written at the offset; what is not found there keeps the value it had |
| FrameDecoder.DecodeAddress | common/CASExampleHelper.cpp:1360-1393 | network number once three octets are there, station address once all of it is |
| FrameDecoder.DecodeApduInto | common/CASExampleHelper.cpp:1407-1494 | the switch over PDU types fills type, segmentation, invoke id, service, reason and reference as specified |
| FrameDecoder.DecodeNpduInto | common/CASExampleHelper.cpp:1348-1406 | the NPDU walk fills the remaining fields, early returns included |
| FrameDecoder.DecodeBacnetFrame | common/CASExampleHelper.cpp:1329-1495 | after decoding, every field of the struct is the one the frame determines, unreached ones at their defaults; no read outside the frame |
| FrameEncoding.AddressRoundTrip | common/CASExampleHelper.cpp:1360-1393 | network numbers and station addresses of any length 0 to 255 are recovered, and the cursor moves past them |
| FrameEncoding.ControlFlags | common/CASExampleHelper.cpp:1356-1358 | the control octet of Clause 6.2.2 is taken apart into the flags it was composed from |
| FrameEncoding.ServiceRoundTrip | common/CASExampleHelper.cpp:1414-1422 | service choice and reference of a request or acknowledgement are recovered |
| FrameEncoding.PduRoundTrip | common/CASExampleHelper.cpp:1407-1494 | all eight APDU types, segmented or not, are decoded to their contents |
| FrameEncoding.NpduRoundTrip | common/CASExampleHelper.cpp:1348-1406 | NPCI with optional destination, source and hop count, network message or APDU, is recovered |
| FrameEncoding.FrameRoundTrip | common/CASExampleHelper.cpp:1329-1495 | every well-formed frame of BVLC function 0x04, 0x0A or 0x0B is decoded to exactly what its sender encoded |
| FrameEncoding.LaterSegment | common/CASExampleHelper.cpp:1407-1458 | a later segment of a ReadProperty or WriteProperty request or a ReadProperty acknowledgement is reported without a reference if and only if its fragment does not open like one |
| FrameEncoding.LaterSegmentMisread | common/CASExampleHelper.cpp:1407-1458 | a second segment of a WriteProperty and one of a ReadProperty acknowledgement that are reported as Analog Input 0, Present_Value |
| Truncation.TruncationMonotone | common/CASExampleHelper.cpp:1329-1495 | every optional field reported for the first octets of a datagram is reported with the same value for the whole |
| Truncation.KeepsDecodeApdu | common/CASExampleHelper.cpp:1403-1494 | the same for the APDU fields alone |
| Truncation.NetworkNumbersExact | common/CASExampleHelper.cpp:1356-1393 | a truncated frame reports DNET and SNET correctly exactly from the octet where their specifier's first three octets are complete, and 0 before |
| Truncation.MessageTypeExact | common/CASExampleHelper.cpp:1356-1401 | a truncated network message is reported as type 0 exactly until its type octet is inside |
| NameLookup.LookUpIdName | common/CASExampleHelper.cpp:1130-1145 | on a strictly sorted table the binary search terminates with the result of a linear scan |
| NameLookup.ScanFindsRow | common/CASExampleHelper.cpp:532-535 | in a sorted table every row is found by its own id |
| NameLookup.ScanMisses | common/CASExampleHelper.cpp:1130-1145 | nothing is found if and only if no row has the id |
| NameLookup.ScanRow | common/CASExampleHelper.cpp:1130-1145 | what is found is the name of a row with the id |
| Texts.DecimalRoundTrip | common/CASExampleHelper.cpp:1511 | the `%u` text of a number reads back as the number |
| Texts.HexRoundTrip | common/CASExampleHelper.cpp:1499-1501 | the `%02X` text of octets reads back as the octets |
| CStrings.Snprintf | common/CASExampleHelper.cpp:1511 | a bounded write leaves the longest prefix that fits, NUL-terminated inside the buffer |
| Summary.BoundedIsPrefix | common/CASExampleHelper.cpp:1521-1636 | for every buffer size the text shown is a prefix of the ideal text, shorter than the buffer, complete when it fits, and otherwise within two characters of the end |
| Summary.BodyNeverTruncated | common/CASExampleHelper.cpp:1550-1632 | the 128-character body buffer is asked for at most 110 characters |
| Summary.HeadTextSize | common/CASExampleHelper.cpp:1521-1636 | everything but the DADR digits takes at most 127 characters |
| Summary.LogLineComplete | common/CASExampleHelper.cpp:1755-1763 | in the 192-character log buffer only DADR digits are ever cut, on a whole octet and after at least 32 octets, and only when the whole text does not fit |
| Summary.DecodedWellRanged | common/CASExampleHelper.cpp:1329-1495 | decoded network numbers are 16-bit; a reference is in range and comes only with service 12 or 15 of a request or service 12 of an acknowledgement |
| Summary.NamedFormIff | common/CASExampleHelper.cpp:1610-1632 | an object is shown by name if and only if both its type and its property are in the tables |
| SummaryReader.SummaryReadBack | common/CASExampleHelper.cpp:1521-1636 | read word by word by a reader with captions of its own, the summary of any frame says the kind of PDU or message, its service, reason or type by the entry of its own table or else by number, object and property by their rows or else by number, instance, index, DNET and DADR |
| SummaryReader.HeadRead | common/CASExampleHelper.cpp:1552-1608 | the caption gives the PDU type, and the word after it is the entry of the table that belongs to that type or the number |
| SummaryReader.ItemRead | common/CASExampleHelper.cpp:1610-1632 | the words for object and property are the rows of their tables if both have one and the two numbers otherwise; instance and index read back |
| TruncatedSummary.UnknownExact | common/CASExampleHelper.cpp:1529-1549 | a frame is summarised as "?" if and only if it is not recognised, or is no network message and either ends before its PDU or holds a PDU of an unassigned type without a destination |
| TruncatedSummary.NetworkTextTells | common/CASExampleHelper.cpp:1538-1544 | two network messages with the same flags are summarised alike if and only if type, DNET and DADR agree |
| TruncatedSummary.CutMessageExact | common/CASExampleHelper.cpp:1529-1544 | for every cut of every network message: the summary is that of the whole if and only if type, DNET and DADR are each inside the cut or 0 and empty; "?" if and only if fewer than four octets are left |
| TruncatedSummary.CutPduExact | common/CASExampleHelper.cpp:1529-1635 | for every cut of every frame with a PDU: "?", the BVLC function, or the whole summary with its body cut to a prefix and its route complete; the whole summary if and only if service, reason and reference are still reported |
| TruncatedSummary.TypeCut | common/CASExampleHelper.cpp:1538-1544 | an I-Am-Router-To-Network cut after its NPCI is summarised as type 0, unlike the whole |
| TruncatedSummary.DnetCut | common/CASExampleHelper.cpp:1506-1511 | a routed message cut before its DNET is summarised with DNET=0, unlike the whole |
| TruncatedSummary.DadrCut | common/CASExampleHelper.cpp:1506-1516 | a routed message cut before its DADR is summarised without one, unlike the whole |
| TruncatedSummary.BvlcCut | common/CASExampleHelper.cpp:1533-1536 | a unicast frame cut before its control octet is summarised by its BVLC function |
| TruncatedSummary.PduCut | common/CASExampleHelper.cpp:1553-1555 | a request cut after its first octet is summarised as "ConfirmedRequest" |
| SummaryPrinter.AppendHex | common/CASExampleHelper.cpp:1497-1502 | appends the digits of as many whole octets as fit |
| SummaryPrinter.AppendRouteSuffix | common/CASExampleHelper.cpp:1506-1517 | appends network number and station address within the buffer, nothing without a destination |
| SummaryPrinter.PrintApdu | common/CASExampleHelper.cpp:1552-1608 | the switch over PDU types writes the label, name or number of each |
| SummaryPrinter.PrintBody | common/CASExampleHelper.cpp:1550-1632 | the body buffer ends up with the whole PDU and reference text |
| SummaryPrinter.SummarizeBacnetFrame | common/CASExampleHelper.cpp:1521-1636 | for every frame and buffer the buffer holds the bounded text, NUL-terminated; NULL and empty buffers are left alone |
| FrameLog.LogBacnetFrame | common/CASExampleHelper.cpp:1755-1763 | the log line ends in the bounded text for 192 characters, or in the XML dump when that is switched on |
| Xml.ReadElement | common/CASExampleHelper.cpp:1667-1751 | the text of any well-formed tree, at any place where an element may stand, is read by an independent automaton as that very tree: names, attributes, texts and children |
| Xml.DocumentRoundTrip | common/CASExampleHelper.cpp:1667-1751 | printed at any depth, a well-formed tree is one document, and the document is that tree |
| Xml.SecondRootRefused | common/CASExampleHelper.cpp:1667-1751 | the reader takes no document with two roots |
| XmlDump.MessageWellFormed | common/CASExampleHelper.cpp:1667-1751 | the tree of every frame has valid names and no angle bracket, ampersand or quotation mark in values or text |
| XmlDump.DumpIsDocument | common/CASExampleHelper.cpp:1667-1751 | the dump of every frame is one document with a single root, read as exactly the tree of the frame |
| DumpReader.NpduBack | common/CASExampleHelper.cpp:1676-1747 | from the NPDU element: version, control, both network numbers and station addresses, message type or APDU |
| DumpReader.ApduBack | common/CASExampleHelper.cpp:1700-1745 | from the APDU element: PDU type by the eight words of Clause 20.1, invoke id, service, reason, object, property and array index |
| DumpReader.AllNamedBack | common/CASExampleHelper.cpp:1695-1738 | serviceName, reasonName, typeName and name are the entries of their own tables for the numbers beside them, and absent where those have none; no station address is shown empty and an APDU element without object is self-closed |
| DumpReader.DumpReadBack | common/CASExampleHelper.cpp:1657-1751 | read as a document, the dump of any frame gives back its length, all of the decoded frame but three details `Shown` names (segmented or not, the number of an unassigned PDU type, whether a message type 0 was there at all), the right name beside each number, and its octets if and only if it has four octets and starts with 0x81, else the note that it was not recognised |
| DumpReader.DumpLayout | common/CASExampleHelper.cpp:1667-1676 | the dump of a frame without NPDU, line by line with its indents |
| DumpReader.UnrecognisedDump | common/CASExampleHelper.cpp:1667-1675 | a frame of another BVLC type is dumped without its octets, and exactly like another one of its length |
| XmlPrinter.PrintApdu | common/CASExampleHelper.cpp:1700-1745 | prints the APDU element, self-closed or closed after its children |
| XmlPrinter.PrintNpdu | common/CASExampleHelper.cpp:1677-1747 | prints the NPDU element with its addresses and payload |
| XmlPrinter.PrintFrameAsXml | common/CASExampleHelper.cpp:1667-1751 | the printed text is the text of the frame's tree |
| UdpTable.TableInvariant | common/CASExampleHelper.cpp:67-88 | over every run instances stay distinct, at most four slots are used, the rotating index stays inside, and lookup is the abstract map |
| UdpTable.InvariantStep | common/CASExampleHelper.cpp:1924-1963 | each call and each arrival keeps the table invariant |
| UdpTable.AgreesStep | common/CASExampleHelper.cpp:1924-1963 | each step keeps slots, bound instances and open sockets those of the abstract state |
| UdpTable.PollSameBut | common/CASExampleHelper.cpp:138-153 | polling changes queues only |
| UdpTable.SendsIffOpen | common/CASExampleHelper.cpp:192-204 | a send goes out if and only if the instance's last set-up since the last shutdown succeeded and the connection string has six octets; then the whole message leaves through the instance's slot to the address and port those octets name |
| UdpTable.SetupTells | common/CASExampleHelper.cpp:1924-1950 | after any run a set-up returns true if and only if it connected and the instance had a slot or one of the four was free, and if and only if it leaves the instance with a socket, which is then new |
| UdpTable.PortsOfHistory | common/CASExampleHelper.cpp:1941-1967 | over any run the current instance is the last one made current, the port of each binding that of the last set-up that opened it, and the port used for broadcasts that of the last set-up that opened what was then the current instance |
| UdpTable.FailedRebind | common/CASExampleHelper.cpp:1936-1940 | a failed set-up of a bound instance leaves it bound with no socket |
| RoundRobin.PollExact | common/CASExampleHelper.cpp:138-153 | a round ends on the first socket in cyclic order with something to hand on, delivers the head of that queue and takes one datagram off every queue polled |
| RoundRobin.Rotation | common/CASExampleHelper.cpp:131-157 | the slot a receive served is polled last by the next one, the slot it started with when it served none; a receive without room for an address touches nothing |
| RoundRobin.IdleExact | common/CASExampleHelper.cpp:138-157 | a receive returns 0 exactly when no polled socket has a non-empty datagram at its head |
| RoundRobin.IdleMeansEmpty | common/CASExampleHelper.cpp:154-157 | without zero-length datagrams, 0 means that every bound queue is empty |
| RoundRobin.ZeroLengthHidesNext | common/SimpleUDP.cpp:164-168 | a zero-length datagram is consumed and reported as nothing although another waits behind it |
| RoundRobin.ReceiveProgress | common/CASExampleHelper.cpp:131-157 | for the non-empty datagram at any position of any bound queue, each receive delivers it, takes the one at the head of its queue, or brings its socket nearer; the measure strictly decreases |
| RoundRobin.Progress | common/CASExampleHelper.cpp:131-157 | over a run, measure plus receives made never exceeds the measure at the start until it is delivered |
| RoundRobin.NoStarvation | common/CASExampleHelper.cpp:125-157 | the non-empty datagram at position k of a queue on one of n sockets is delivered, off the head of that queue after the k before it, within (k + 1) * n receives |
| RoundRobin.ConservationStep | common/CASExampleHelper.cpp:138-157 | one event neither loses, repeats nor reorders a non-empty datagram of a socket |
| RoundRobin.Conservation | common/CASExampleHelper.cpp:111-183 | per socket and over any run that leaves it open, delivered followed by waiting is what waited and arrived, in order; slot and instance stay the same |
| RoundRobin.OctetsHandedOn | common/CASExampleHelper.cpp:145-183 | over any run the k-th message handed to the stack off a slot is, octet for octet, the k-th datagram delivered off it, cut only where the buffer of that receive ends |
| RoundRobin.OctetsConserved | common/CASExampleHelper.cpp:111-183 | with buffers that hold every datagram of a socket, the messages handed on followed by the contents still waiting are the contents that waited and arrived |
| RoundRobin.ConnectionStringRoundTrip | common/CASExampleHelper.cpp:164-170 | the six octets give back the IPv4 octets and every 16-bit port |
| RoundRobin.ReplyRouting | common/CASExampleHelper.cpp:192-211 | the reported connection string and instance, used at any later point of the run while the instance has its socket, transmit through the same slot to the same address and port |
| RoundRobin.DeliveriesRoutable | common/CASExampleHelper.cpp:111-183 | whatever a receive delivers at any point of a run is the valid datagram at the head of a bound, open slot's queue, reported with that slot's instance and with its own octets as far as the buffer has room |
| UdpDispatcher.Dispatcher.FindUdpBindingByInstance | common/CASExampleHelper.cpp:81-88 | the loop finds the first binding of the instance |
| UdpDispatcher.Dispatcher.SetupUDP | common/CASExampleHelper.cpp:1924-1950 | new table state and result, full table and failed bind included |
| UdpDispatcher.Dispatcher.ShutdownUDP | common/CASExampleHelper.cpp:1956-1963 | every bound binding is closed and unbound, nothing else changes |
| UdpDispatcher.Dispatcher.SetNetworkPortInstance | common/CASExampleHelper.cpp:1965-1967 | changes the current instance and nothing else |
| UdpDispatcher.Dispatcher.Poll | common/CASExampleHelper.cpp:138-153 | the polling loop leaves the table and result of a polling round |
| UdpDispatcher.Dispatcher.HelperReceiveMessage | common/CASExampleHelper.cpp:111-183 | new table state and rotating index, and the message, connection string and instance handed to the stack |
| UdpDispatcher.Dispatcher.HelperSendMessage | common/CASExampleHelper.cpp:192-216 | exactly one transmission through the socket of the instance, or none |
| DeferredRestart.TimerRefinesRequests | common/CASExampleHelper.cpp:1768-1798 | after every prefix of every run, pending, deadline and kind are non-emptiness, least deadline and "some Cold" of the requests not yet served |
| DeferredRestart.FiresExactlyWhenDue | common/CASExampleHelper.cpp:1768-1798 | a poll fires if and only if an unserved request has reached its deadline, which is when its delay has gone by since it was made, and reports Cold if and only if one of the requests served is Cold |
| DeferredRestart.NeverTwice | common/CASExampleHelper.cpp:1792-1793 | between two firings there is a request: no batch fires twice |
| DeferredRestart.ServedByDeadline | common/CASExampleHelper.cpp:1771-1781 | no later request postpones an earlier one: by the first poll at its deadline it has been served |
| DeferredRestart.FirstPollAtDeadline | common/CASExampleHelper.cpp:1788-1798 | under a monotonic clock every earlier poll of the batch came before the deadlines requested so far and not after those still to come |
| DeferredRestart.MergedBatch | common/CASExampleHelper.cpp:1768-1786 | from any timer that is not pending, requests in a row leave their least deadline and Cold if and only if one is Cold |
| DeferredRestart.MergeOrderIndependent | common/CASExampleHelper.cpp:1771-1781 | from any two timers that are not pending, the merge depends on the set of promised deadlines and kinds only, not on order, repetition or what the timers held before |
| DeferredRestart.RestartTimer.RequestRestart | common/CASExampleHelper.cpp:1768-1786 | the new timer state, deadline computed in 64 bits |
| DeferredRestart.RestartTimer.RestartDue | common/CASExampleHelper.cpp:1788-1798 | the result, the kind handed out and the new timer state |
| CommandableOutputs.CommandHistory | main.cpp:249-321 | after any sequence of commands the callbacks answer for a slot with the number of the last command that was acceptable by its own fields at its priority, null when that was a relinquish or there was none |
| CommandableOutputs.AcceptedExactly | main.cpp:607-700 | the commands with an effect are exactly those to Present_Value of instance 1 of the matching type on this device with any real, 0 or 1, or 1 to 3, and relinquishes; each leaves its own number at its own priority |
| CommandableOutputs.WriteThenRead | main.cpp:249-485 | a write is answered with its own number in its own datatype and is not null, a relinquished slot is null and declined, and every other slot answers as before |
| CommandableOutputs.GettersAnswerProperties | main.cpp:296-455 | the three numeric getters answer exactly what the device has to say of each property, object by object, each in its own datatype, and no two of them the same query |
| CommandableOutputs.BooleanAnswers | main.cpp:457-485 | the Boolean getter says of each of the 16 slots whether it is null, false for Out_Of_Service of the seven types, and nothing else |
| CommandableOutputs.HistoryOfSlot | main.cpp:249-262 | the same for the stored slot |
| CommandableOutputs.StepSlot | main.cpp:253-262 | one command changes the slot it addresses and no other, and nothing when rejected |
| CommandableOutputs.EffectivePriority | main.cpp:249-251 | priorities 1 to 16 are kept and every other octet becomes 16 |
| CommandableOutputs.NullAgreement | main.cpp:457-471 | the Boolean getter calls a slot null exactly when the object's typed getter declines it, and otherwise the typed getter returns the stored value |
| CommandableOutputs.LegalReadBack | main.cpp:349-364 | a stored legal value survives the conversion to double and back |
| CommandableOutputs.RunKeepsLegal | main.cpp:629-677 | over every run the Binary Output holds 0 or 1 and the Multi-State Output 1 to 3 in every set slot |
| CommandableOutputs.ResolveFromCorrect | main.cpp:310-328 | resolving from callback answers gives the set slot of highest priority or the default |
| CommandableOutputs.ResolvedValue | main.cpp:607-700 | after any commands the resolved Present_Value equals the object's own and is legal |
| CommandableOutputs.PresentValueOfHistory | main.cpp:607-700 | Present_Value is the unrelinquished write of highest priority in the history, or Relinquish_Default |
| CommandableOutputs.AnswersSinceStartUp | main.cpp:239-321 | from the start-up state, after any commands: each slot answers with its last command, and the resolved Present_Value is legal and what the history leaves in force over 20.0, inactive and state 1 |
| CommandableOutputs.Commute | main.cpp:253-262 | commands on different objects or at different effective priorities commute |
| CommandableOutputs.LaterCommandDecides | main.cpp:253-262 | of two accepted commands to one slot the later alone decides what readers see |
| CommandableOutputs.StaleValuesInvisible | main.cpp:277-287 | the values left in relinquished slots influence no answer of any getter |
| OutputStation.Commandable.CommandWrite | main.cpp:253-257 | writes flag and value of one slot of one object in place |
| OutputStation.Commandable.CommandRelinquish | main.cpp:259-262 | clears the flag of one slot |
| OutputStation.Outputs.SetPropertyReal | main.cpp:607-627 | new state of an Analog Output write, and true exactly for a command to Present_Value of Analog Output 1 of this device |
| OutputStation.Outputs.SetPropertyEnumerated | main.cpp:629-652 | the same for the Binary Output and 0 or 1; other values change nothing and report value-out-of-range |
| OutputStation.Outputs.SetPropertyUnsignedInteger | main.cpp:654-677 | the same for the Multi-State Output; states outside 1 to 3 change nothing and report value-out-of-range |
| OutputStation.Outputs.SetPropertyNull | main.cpp:679-700 | relinquishes one slot of the addressed object |
| OutputStation.Outputs.ReadPrioritySlotOf | main.cpp:277-287 | reads flag and value of the addressed slot, only for a Priority_Array query with index 1 to 16 |
| OutputStation.Outputs.ReadReal | main.cpp:296-328 | the Real getter on the arrays |
| OutputStation.Outputs.ReadEnumerated | main.cpp:330-385 | the Enumerated getter on the arrays |
| OutputStation.Outputs.ReadUnsignedInteger | main.cpp:387-455 | the Unsigned getter on the arrays |
| OutputStation.Outputs.ReadBool | main.cpp:457-485 | the Boolean getter on the arrays |

## Left out

- The CAS BACnet Stack itself, NPDU forwarding and the routing table: not part of this repository.
- Sockets, interface discovery, terminal input and logging beyond the frame summary and dump: operating-system I/O; sockets are queues, and the outcomes of bind and send are arguments.
- Command-line parsing and start-up: their behaviour is that of `strtol` and of single branches.
- Character-string and octet-string getters: constants.
- The arrow keys that change Analog Input 1: the value is a constant of the model; only its getter reads it.
- Floating-point rounding and NaN: stored values are exact reals, and an out-of-range conversion to `uint32_t`, which no reachable state needs, is given the value 0.
- The rows of the name tables: parameters with the properties listed under Conventions.
- RoundRobin.Conservation: not over a shutdown or a repeated set-up of the same instance, which discard what waits on the socket, nor over receives into a buffer of length 0, which discard a datagram each.
- RoundRobin.NoStarvation: over runs without set-up and shutdown, since these change the number of sockets in the round.
- DeferredRestart.FirstPollAtDeadline: deadlines that do not pass 2^64 milliseconds and a clock that does not fail; the other results about the timer hold for any clock.
- A NULL message buffer in the receive callback: the stack passes its own buffer.

# Verified models of a FastCGI library and a CoAP library

The repository is a proxy between FastCGI web servers and CoAP devices. This project models its
two protocol libraries in Dafny and proves what they do, for all inputs and all runs.

* **FastCGI** (`proxy/fcgi/fcgiapp.c`). The reader takes the records of one stream out of a byte
  stream that arrives in arbitrary pieces; the two writers of a request pack bytes into records
  on a shared connection. `ReaderSpec` says what a stream is as a function of the bytes on the
  wire, `Reader` has the buffered, re-entrant code and shows that every call agrees with it,
  `ReaderTheorems` and `RequestReading` say what that means for records and for whole requests,
  `CutStreams` and `CutRequests` for connections that end early, `AnyBytes` for any bytes at all,
  and `KeptConnection` for one request after another.
  `WriterSpec`, `Writer`, `WriterTheorems` and `WriterRuns` do the same for writing, up to the
  round trip; `StreamTransfer` joins a writer and a reader. `FcgiProtocol` and `NameValue` are
  the formats of the FastCGI Specification 1.0, `FcgiConnection` the connection and the request.
* **MD5** (`coap/coap_md5.c`). `Md5Spec` is RFC 1321 by its tables; `Md5` has the unrolled
  compression function and the streaming context; `Md5Suite` works out a digest of the test suite.
* **CoAP messages** (`coap/coap_list.c`, `coap/coap_pdu.c`). `CoapList` is the linked list with
  its prefetching iterator; `PduSpec` the packet layout (sections 3.1 and 3.2 of
  draft-ietf-core-coap-08); `CoapPdu` the messages in memory; `PduTheorems` and `PduRuns` the
  round trip and the runs; `CoapQuery` the query lookup that overwrites its input.
* **Users of these.** `SweepSpec` and `CoapClient` are the retransmission sweep
  (`coap/coap_client.c`), `CacheSpec`, `CoapCache` and `CacheRuns` the response cache
  (`coap/coap_cache.c`).

What changes in place in the C code is a class with mutable fields and arrays here, and each
method is proved against a function on values; the theorems are about those functions.

## Conventions

Bytes are integers from 0 to 255, `char` included; pointers into buffers are indices. Reads from
the connection return an arbitrary positive count, and a connection may fail at any point. The
clock is a parameter that never runs back. MD5 words have 32 bits, as the comment at
`coap/coap_md5.h:42` means them to have, although the type named there is wider on 64-bit
systems. The message id of a CoAP packet is in the byte order of a little-endian host.

## Where the code and its documents part

The code is what is modelled. It departs from the documents in these places, each with a lemma:

* Padding of BEGIN_REQUEST records and of records that end a stream is not skipped. Padding that
  does not begin with the version makes what follows fail, and success is reported all the same:
  one zero byte on BEGIN_REQUEST is enough (`RequestReading.PaddedOpening`), and
  `RequestReading.RequestIsRead` has the exact condition.
* A connection that ends between two parameters is reported as a success, with the parameters
  that have arrived: one record of whole pairs is enough (`CutRequests.HalfAnEnvironment`).
  `CutRequests.PairsCutShort` has the exact condition for every place to cut, and
  `CutRequests.RequestCutShort` for whole requests.
* An empty skipped record takes the content of the next one with it, be it data
  (`ReaderTheorems.EmptyForeignRecordSwallowsNext`) or a query, which is then answered as if it
  asked for nothing (`ReaderTheorems.SkippedQueryUnanswered`). A management record of unknown type
  is answered but not read, so that the client gets its content: a type of 12 with one byte of
  content is enough (`ReaderTheorems.UnknownRecordLeaks`). `ReaderTheorems.ReaderDelivers` has
  the exact conditions.
* On a kept connection unread input keeps the next request from being accepted
  (`KeptConnection.UnreadInputRefuses`), and what was buffered of the next request is lost
  (`KeptConnection.DroppedOpening`).
* A byte can be put back in front of the buffer when the limit is one from an earlier fill
  (`Reader.PushbackStaysInside`, `Reader.StaleLimit`).
* The response to GET_VALUES is built in 64 bytes. It fits if and only if the replies, repetitions
  counted, take up 55 bytes at most (`ReaderSpec.AnsweredExactly`); FCGI_MAX_REQS four times is
  too much (`ReaderSpec.FourTimesTooMany`). Distinct names always fit
  (`ReaderSpec.DistinctNamesAnswered`).
* The size of a parameter is added up in a C int and overflows when the lengths come to 2^31 - 2 or
  more (`NameValue.ParseEncodedPairs`); eight bytes are enough (`NameValue.EightBytesOverflow`).
* An option of length 15 is written without the extension byte the reader expects
  (`PduTheorems.RoundTrip`), and the option counter wraps at 256 (`PduRuns.CounterIsExact`).
* The writer of packets tests where a piece begins, not where it ends. A buffer of 1400 bytes is
  overrun if and only if the packet is longer than that (`PduTheorems.WriterStaysInside`); no
  options and a payload of 1400 bytes are enough (`PduTheorems.FullPayloadOverruns`). The reader
  may look 270 bytes past a packet before it turns it down (`PduTheorems.ReaderStaysInside`).
* A list without an order takes new items in second place, not at the end
  (`CoapList.UnorderedGoesSecond`).
* A sweep deletes by token prefix, so the wrong entry can go
  (`SweepSpec.ShorterTokenTakesLonger`).
* The header of the cache says that keys stand for requests equal in all fields but three; the
  payload is left out too, and codes and values run together in what is hashed. Collisions, short
  of one of the digest itself, are exactly those between options of different lengths
  (`CacheSpec.CollisionsAreExact`, with an instance in `CacheSpec.DifferentRequestsShareKey`).

## Model

| member | source | states |
|---|---|---|
| FcgiConnection.Connection.OsRead | proxy/fcgi/fcgiapp.c:1635-1644 | a read takes any positive number of the bytes on the wire, from the front; at the end it reports end or the read error |
| FcgiConnection.Connection.WriteItAll | proxy/fcgi/fcgiapp.c:1362-1374 | however short the single writes are, all bytes reach the connection in order, or a prefix and an error, and an error exactly when the connection cannot take them all |
| FcgiProtocol.HeaderFields | proxy/fcgi/fcgiapp.c:1201-1219 | byte by byte: version 1, type, request id and content length high byte first, padding length and reserved byte lie in a header where section 3.3 has them, and id and length read back as they were given |
| FcgiProtocol.EncodeLayout | proxy/fcgi/fcgiapp.c:1201-1219 | where each header field, content and padding of a record lie on the wire, byte by byte, whatever follows |
| FcgiProtocol.ParseEncode | proxy/fcgi/fcgiapp.c:1201-1219 | a list of records put on the wire is read back as the same list (section 3.3 of the FastCGI Specification 1.0) |
| FcgiProtocol.EncodeParse | proxy/fcgi/fcgiapp.c:1588-1613 | the converse: bytes that parse as records are the encoding of those records, and of no others |
| FcgiProtocol.AlignInt8 | proxy/fcgi/fcgiapp.c:1272-1274 | the smallest multiple of eight not below the argument |
| FcgiProtocol.EndRequestCarries | proxy/fcgi/fcgiapp.c:1230-1242 | the body of END_REQUEST carries the exit status in its first four bytes, high byte first and modulo 2^32, and the protocol status in the fifth |
| NameValue.ParseEncodedPairs | proxy/fcgi/fcgiapp.c:1138-1190 | decoding a list of name-value pairs gives the pairs that were encoded, whichever of the two length forms each length was sent in, if and only if the block for each of them has a size that fits a C int |
| NameValue.PairLayout | proxy/fcgi/fcgiapp.c:1149-1171 | a pair on the wire: the two lengths, each in one byte below 128 or in four bytes, high byte first and with the top bit set; then name and value |
| NameValue.EntryLayout | proxy/fcgi/fcgiapp.c:1175-1183 | the entry of a decoded pair is its name, byte 61, and its value |
| NameValue.EightBytesOverflow | proxy/fcgi/fcgiapp.c:1155-1171 | eight bytes of 0xff are enough to make the size of the block overflow |
| NameValue.ParsedIsEncoded | proxy/fcgi/fcgiapp.c:1138-1190 | decoding succeeds on nothing but encoded pair lists: from the bytes the list is recovered and encodes to the same bytes |
| NameValue.CutPairs | proxy/fcgi/fcgiapp.c:1138-1190 | a list of pairs that is cut short decodes to its whole pairs, and without an error if and only if it is cut between two of them |
| NameValue.Params.constructor | proxy/fcgi/fcgiapp.c:1023-1032 | a new parameter vector is empty and terminated |
| NameValue.Params.PutParam | proxy/fcgi/fcgiapp.c:1076-1088 | one entry is appended, whether or not the vector is doubled, and the terminator stays inside it |
| NameValue.Params.GetParam | proxy/fcgi/fcgiapp.c:1103-1118 | the value of the first entry that begins with the name and an equals sign, found by scanning the terminated vector |
| NameValue.LookupFindsFirst | proxy/fcgi/fcgiapp.c:1103-1118 | for decoded pairs of any names, the lookup returns what stands behind the name in the first entry that begins with it and an equals sign, and nothing exactly when there is none |
| NameValue.HitsByKey | proxy/fcgi/fcgiapp.c:1103-1118 | a name without an equals sign finds the pairs whose names are the same up to their first equals sign, and no others |
| NameValue.LookupByName | proxy/fcgi/fcgiapp.c:1103-1118 | where no name holds an equals sign, that is the value of the first pair of the name |
| ReaderSpec.RunDelivers | proxy/fcgi/fcgiapp.c:1649-1654 | content may be taken in any portions: delivering some of it and going on is the same as delivering it all |
| ReaderSpec.BoundaryPads | proxy/fcgi/fcgiapp.c:1668-1675 | padding may be dropped in any portions |
| ReaderSpec.RunStaysBegun | proxy/fcgi/fcgiapp.c:1527-1564 | a request that has begun is never replaced by what comes later in a stream |
| Reader.BuildResponse | proxy/fcgi/fcgiapp.c:1459-1492 | the 64-byte response to GET_VALUES: it is built if and only if the names are C strings and the replies fit the buffer; it is then one record of type 10 in which the server reads, for each name asked for in order, FCGI_MAX_CONNS=1, FCGI_MAX_REQS=1 or FCGI_MPXS_CONNS=0 |
| ReaderSpec.ReplySays | proxy/fcgi/fcgiapp.c:1459-1492 | such a response parses as a single record of type 10 and request 0, a multiple of eight bytes long, and its content decodes to these entries and nothing else |
| ReaderSpec.UnknownReplySays | proxy/fcgi/fcgiapp.c:1493-1506 | the answer to a management record of another type parses as a single record of type 11 and request 0 whose content begins with that type |
| ReaderSpec.RefusalSays | proxy/fcgi/fcgiapp.c:1536-1546 | the answer to a second request parses as a single END_REQUEST record of the refused request with protocol status 1 |
| ReaderSpec.AnsweredExactly | proxy/fcgi/fcgiapp.c:1459-1492 | the library can build a response if and only if every name asked for is free of NUL bytes and 17, 16 and 18 bytes for each time one of the three variables is asked for come to 55 at most |
| ReaderSpec.DistinctNamesAnswered | proxy/fcgi/fcgiapp.c:1459-1492 | a server that names no variable twice, and none with a NUL byte, is always answered |
| ReaderSpec.FourTimesTooMany | proxy/fcgi/fcgiapp.c:1466-1481 | one request for FCGI_MAX_REQS is answered, four in one record overrun the buffer |
| Reader.Stream.constructor | proxy/fcgi/fcgiapp.c:1754-1809 | a new reader has everything on the wire ahead of it |
| Reader.Stream.FillBuffProc | proxy/fcgi/fcgiapp.c:1624-1742 | refilling the buffer moves a stream neither forward nor back: what the client has ahead of it is what the byte-level definition of the stream says, however the connection cuts its reads and headers; the `decreases` clause shows that nested calls stop at one level, on any input |
| Reader.Stream.TakeRecord | proxy/fcgi/fcgiapp.c:1631-1684 | one turn of the loop up to the next header: content is delivered, dropped content and padding are skipped, and each turn uses up wire bytes or returns |
| Reader.Stream.SkipContent | proxy/fcgi/fcgiapp.c:1649-1663 | dropped content is passed over, and dropping ends exactly with the content of that record |
| Reader.Stream.ProcessHeader | proxy/fcgi/fcgiapp.c:1588-1613 | a header is dispatched as section 3.3 and section 5 prescribe for its version, type and request id, except that skipping is remembered by the reader; error codes and replies included |
| Reader.Stream.ProcessBeginRecord | proxy/fcgi/fcgiapp.c:1527-1564 | a BEGIN_REQUEST record sets request id, role and keep-alive flag, or is answered with CANT_MPX_CONN while a request is active (`ReaderSpec.RefusalSays`) |
| Reader.Stream.ProcessManagementRecord | proxy/fcgi/fcgiapp.c:1454-1507 | a GET_VALUES record is read to its end and answered with its values (`ReaderSpec.ReplySays`), any other type with UNKNOWN_TYPE (`ReaderSpec.UnknownReplySays`) |
| Reader.Stream.GetStr | proxy/fcgi/fcgiapp.c:143-181 | the next n bytes of the stream in order, or all that are left when the end comes first; a read that was met can be put back |
| Reader.Stream.GetChar | proxy/fcgi/fcgiapp.c:108-126 | the next byte of the stream, or EOF exactly when there is none |
| Reader.Stream.UnGetChar | proxy/fcgi/fcgiapp.c:237-246 | an accepted byte is put back in front of the stream; refusal leaves the stream alone; exactly when each happens, and where the position goes |
| Reader.PushbackStaysInside | proxy/fcgi/fcgiapp.c:237-246 | any number of calls stays in the buffer if and only if the limit is not beyond the position |
| Reader.StaleLimit | proxy/fcgi/fcgiapp.c:237-246 | a limit from an earlier fill of the buffer: two calls leave it |
| Reader.Stream.GetLine | proxy/fcgi/fcgiapp.c:200-221 | the bytes up to and including a newline, at most n - 1, and NULL exactly at the end of the stream |
| Reader.Stream.ReadParams | proxy/fcgi/fcgiapp.c:1138-1190 | the entries appended are those that section 3.4 decoding gives of the whole stream, success is reported exactly when it decodes, an overflowing size is told apart from a broken list, and the vector stays terminated |
| Reader.Stream.SetReaderType | proxy/fcgi/fcgiapp.c:1845-1857 | the reader goes on with what is left in the buffer and on the wire, for records of the new type, and forgets pending padding; a failed stream is open again, its error kept |
| Reader.Stream.FClose | proxy/fcgi/fcgiapp.c:912-929 | a closed reader delivers nothing more |
| ReaderTheorems.ReadRecords | proxy/fcgi/fcgiapp.c:1624-1742 | on any acceptable records, with anything after them, the stream delivers and replies what the record-level definition says; management records of unknown type may have content |
| ReaderTheorems.OtherRecordsFail | proxy/fcgi/fcgiapp.c:1588-1613 | skipping or not, the acceptable records are all there are: any other, unless it ends the stream or begins the request, makes the stream fail, with nothing delivered and nothing replied |
| ReaderTheorems.AcceptableThroughout | proxy/fcgi/fcgiapp.c:1588-1613 | which records are acceptable, said of each record and the ones before it: a query that cannot be answered is acceptable exactly where the reader skips |
| ReaderTheorems.ReadUnknown | proxy/fcgi/fcgiapp.c:1493-1506 | a management record of unknown type is answered, and then its content is read as content of the stream, delivered or skipped as the stream is |
| ReaderTheorems.DeliveryIsExact | proxy/fcgi/fcgiapp.c:1649-1663 | bytes of the stream are lost exactly when a record of the stream with content is read while the reader skips, and gained exactly when a management record of unknown type with content is read while it does not |
| ReaderTheorems.RepliesAreExact | proxy/fcgi/fcgiapp.c:1649-1663 | the replies are those due if and only if no query for a variable is read while the reader skips |
| ReaderTheorems.ReaderDelivers | proxy/fcgi/fcgiapp.c:1624-1742 | the stream ends where its records end; unless both flaws strike, the client gets exactly the contents of its own records if and only if none is read while skipping and no unknown management record leaks; the replies are those due if and only if no query is read while skipping |
| ReaderTheorems.EmptyForeignRecordSwallowsNext | proxy/fcgi/fcgiapp.c:1723-1725 | the smallest loss: an empty record of another request, then one of the stream |
| ReaderTheorems.UnknownRecordLeaks | proxy/fcgi/fcgiapp.c:1493-1506 | the smallest gain: one management record of unknown type with content, whose bytes the client gets |
| ReaderTheorems.SkippedQueryUnanswered | proxy/fcgi/fcgiapp.c:1649-1663 | two records are enough: behind an empty record of another request any query is answered as if it asked for nothing, even one the library could not answer, although nothing is lost or gained |
| ReaderTheorems.PaddingIsReadAsHeader | proxy/fcgi/fcgiapp.c:1845-1857 | the reason for the failures behind padded records: after a change of type padding is taken for a header, and fails unless its first byte is the version |
| ReaderTheorems.SkipAtEndIsExact | proxy/fcgi/fcgiapp.c:1723-1725 | the reader is left skipping exactly when a skipped, empty record has no record with content after it |
| ReaderTheorems.ReadBegin | proxy/fcgi/fcgiapp.c:1527-1564 | a BEGIN_REQUEST record opens the request it announces unless the reader was left skipping, and then it fails |
| CutStreams.StreamCutShort | proxy/fcgi/fcgiapp.c:1635-1644 | a connection that ends before the last header of a stream: the client gets exactly the contents that have arrived, which are the beginning of all it would get, and the error of the read instead of the end |
| CutStreams.DeliveredByGrows | proxy/fcgi/fcgiapp.c:1635-1644 | what is delivered of fewer bytes is the beginning of what is delivered of more |
| CutStreams.RepliesRefused | proxy/fcgi/fcgiapp.c:1493-1506 | a connection that stops taking replies: the stream fails at the first reply it does not take, with what was delivered before |
| RequestReading.AcceptRequest | proxy/fcgi/fcgiapp.c:2206-2249 | role entry, parameters and input stream after accepting are those of the byte-level definition, also when the parameters break off and the stream is opened again; the parameters begin with FCGI_ROLE=RESPONDER, AUTHORIZER or FILTER for roles 1, 2 and 3, and any other role is refused |
| RequestReading.RoleIsSaid | proxy/fcgi/fcgiapp.c:2211-2230 | looking up FCGI_ROLE in the parameters gives RESPONDER, AUTHORIZER or FILTER for roles 1, 2 and 3, whatever the server sent, and no other role has an entry |
| RequestReading.OtherRoleRefused | proxy/fcgi/fcgiapp.c:2211-2230 | a BEGIN_REQUEST record whose role bytes say no role from 1 to 3 is refused, whatever follows |
| RequestReading.ReadToEnd | proxy/fcgi/fcgiapp.c:143-181 | calls of any sizes give the whole stream, in order |
| RequestReading.Peek | proxy/fcgi/fcgiapp.c:237-246 | after any byte read, putting it back succeeds and leaves the stream as it was, across refills |
| RequestReading.OpeningIsRead | proxy/fcgi/fcgiapp.c:2206-2213 | behind any foreign and management records the request is opened as announced if and only if they neither leave the reader skipping nor leak; padding of the BEGIN_REQUEST record stays in front of what follows |
| RequestReading.ParametersAreRead | proxy/fcgi/fcgiapp.c:2231-2232 | behind padding that is not a header, the exact outcome: if there is any, success is reported for no parameters; if there is none, the parameters are those of the bytes delivered, in order, wherever records cut them, or they overflow, or end inside a pair |
| RequestReading.PaddingReadAsRecords | proxy/fcgi/fcgiapp.c:1845-1857 | padding that spells records is read as these records |
| RequestReading.ParametersAreTheSenders | proxy/fcgi/fcgiapp.c:1138-1190 | if nothing is swallowed and nothing leaks, the parameters are the pairs the server encoded |
| RequestReading.InputIsRead | proxy/fcgi/fcgiapp.c:2244-2244 | behind padding of the record that ended the parameters the input fails at once, and otherwise is what its records deliver |
| RequestReading.RequestIsRead | proxy/fcgi/fcgiapp.c:2178-2256 | from the first byte of a connection that takes the replies: a request is accepted, refused, broken off or overflows, each if and only if a condition on its records holds, padding of BEGIN_REQUEST and end records included; and the request id, the keep-alive bit, the role that FCGI_ROLE names, the parameters and the input then read |
| RequestReading.PaddedOpening | proxy/fcgi/fcgiapp.c:2206-2249 | one zero byte of padding on BEGIN_REQUEST is enough: success is reported with the role and no parameters |
| CutRequests.EnvironmentCutShort | proxy/fcgi/fcgiapp.c:2231-2244 | for the first n bytes of any parameters: until the last header has arrived, success is reported if and only if what was delivered ends between two pairs, for the pairs that have arrived; it is refused if and only if it ends inside one |
| CutRequests.PairsCutShort | proxy/fcgi/fcgiapp.c:1138-1190 | for the pairs a server sends, cut anywhere: success with exactly the first k of them if the cut is behind the k-th, and refusal otherwise |
| CutRequests.HalfAnEnvironment | proxy/fcgi/fcgiapp.c:2231-2244 | the smallest such input: BEGIN_REQUEST, one PARAMS record of whole pairs, and the end of the connection, reported as a success |
| CutRequests.EnvironmentRefused | proxy/fcgi/fcgiapp.c:2231-2244 | the outcome on a connection that stops taking replies, decided by what was delivered up to then |
| CutRequests.RequestCutShort | proxy/fcgi/fcgiapp.c:2178-2256 | of a whole request any number of bytes may arrive: the outcome, the parameters and the input for each, and that no success is reported before the request has begun |
| AnyBytes.AnyBytesAreRead | proxy/fcgi/fcgiapp.c:1588-1742 | any bytes at all are read as the acceptable records they begin with, and then the stream ends, the request begins or the stream fails, by the header that stops the reader |
| AnyBytes.SpelledOnce | proxy/fcgi/fcgiapp.c:1588-1613 | there is only one way to see bytes as acceptable records and a place where the reader stops |
| AnyBytes.AnyEnvironment | proxy/fcgi/fcgiapp.c:2231-2244 | any bytes behind BEGIN_REQUEST, padding of every kind included, are parameters that are whole or broken off, as the records they spell together with what follows |
| KeptConnection.ServeOne | proxy/fcgi/fcgiapp.c:2178-2256 | accepting a request and reading its input gives environment and input as they were sent, and takes everything from the connection |
| KeptConnection.CleanIsRead | proxy/fcgi/fcgiapp.c:2178-2256 | what the server reads of such a request: role, parameters and input as they were sent, and nothing left over |
| KeptConnection.Serve | proxy/fcgi/fcgiapp.c:2178-2256 | any number of requests on one kept connection, each sent when the one before has been read, are all read as they were sent |
| KeptConnection.UnreadInputRefuses | proxy/fcgi/fcgiapp.c:2202-2212 | records of the request before, its input for one, that are still on the connection, with no BEGIN_REQUEST among them, keep the next one from being accepted, whatever follows |
| KeptConnection.DroppedOpening | proxy/fcgi/fcgiapp.c:2202-2212 | a request whose opening the reader before has taken into its buffer is refused, as a new reader starts with an empty one |
| WriterSpec.PutAhead | proxy/fcgi/fcgiapp.c:310-341 | bytes may be put in portions that fit without changing what is sent |
| WriterSpec.PutFull | proxy/fcgi/fcgiapp.c:326-340 | a full buffer goes out before more bytes go in |
| Writer.Stream.Encapsulate | proxy/fcgi/fcgiapp.c:1396-1415 | the buffer becomes one record with header and padding, or empty when it held no data |
| Writer.Stream.EmptyBuffProc | proxy/fcgi/fcgiapp.c:1386-1430 | what is on the wire plus in the buffer is exactly the record stream so far, in and out of raw mode, or a prefix of it after a failed write |
| Writer.Stream.WriteCloseRecords | proxy/fcgi/fcgiapp.c:1326-1358 | an end record, except for an unused error stream, and END_REQUEST from the last writer, through the re-entrant raw mode |
| Writer.Stream.PutStr | proxy/fcgi/fcgiapp.c:310-341 | the bytes put are cut into full records and a remainder in the buffer |
| Writer.Stream.PutChar | proxy/fcgi/fcgiapp.c:282-293 | as PutStr with one byte |
| Writer.Stream.FFlush | proxy/fcgi/fcgiapp.c:887-893 | what is in the buffer goes out as one record; nothing goes out for an empty buffer |
| Writer.Stream.FClose | proxy/fcgi/fcgiapp.c:912-929 | what is in the buffer and the closing records go out, once |
| WriterTheorems.PutConserves | proxy/fcgi/fcgiapp.c:310-341 | no byte is lost or invented, and every record is non-empty, within the buffer and padded by at most 7 to a multiple of eight |
| WriterTheorems.RunKeeps | proxy/fcgi/fcgiapp.c:1326-1358 | over every interleaving of operations on both streams: shape and contents of each stream, END_REQUEST, and request id |
| WriterTheorems.WireIsWellFormed | proxy/fcgi/fcgiapp.c:1326-1430 | after any interleaving the wire parses as whole records of this request; a closed stream carries exactly what it was given and one empty record; END_REQUEST is there once both are closed, once, last, with the status in force, high byte first, and protocol status 0 |
| WriterTheorems.NothingAfterEnd | proxy/fcgi/fcgiapp.c:912-929 | repeated closes and later operations write nothing more |
| WriterRuns.PerformAll | proxy/fcgi/fcgiapp.c:1386-1430 | the two writer objects do over any run what the record-level definition says, a prefix of it on a failing connection |
| WriterRuns.Finish | proxy/fcgi/fcgiapp.c:2002-2021 | finishing closes the error stream, then the output stream, and closes the connection exactly when not kept alive or in error |
| WriterRuns.WrittenIsRead | proxy/fcgi/fcgiapp.c:1386-1430 | writer and reader undo each other: what any run of puts and flushes gave a stream comes back unchanged, then end-of-file |
| StreamTransfer.Transfer | proxy/fcgi/fcgiapp.c:1386-1742 | the same of the objects: a writer performs any run, its bytes go to a reader however the connection cuts them, and calls of any sizes return what was given |
| Md5Spec.WordsAppend | coap/coap_md5.c:111-115 | the words of two pieces of whole words are the words of the whole |
| Md5Spec.RotateMovesBits | coap/coap_md5.c:49-49 | a rotation by n moves each bit n places up, as far as there are places |
| Md5Spec.RotateCarriesOver | coap/coap_md5.c:49-49 | and the bits beyond the top come in again at the bottom |
| Md5Spec.BitsOfF | coap/coap_md5.c:43-43 | bit by bit F is y where x is set, z elsewhere |
| Md5Spec.BitsOfG | coap/coap_md5.c:44-44 | G is x where z is set, y elsewhere |
| Md5Spec.BitsOfH | coap/coap_md5.c:45-45 | H is z where x and y agree, and the opposite of z elsewhere |
| Md5Spec.BitsOfI | coap/coap_md5.c:46-46 | I is y where z is set and x is not, and the opposite of y elsewhere |
| Md5Spec.WordDigits | coap/coap_md5.c:111-115 | bytes and words have the low-order byte first, on the way in and on the way out |
| Md5Spec.InitialBytes | coap/coap_md5.c:80-84 | the bytes of the initial state are 01 23 45 67 89 ab cd ef fe dc ba 98 76 54 32 10 |
| Md5Spec.PaddingBits | coap/coap_md5.c:130-136 | padding is one set bit, then zeros |
| Md5Suite.DigestOfAbc | coap/coap_md5.c:74-159 | the entry "abc" of the test suite in appendix A.5 of RFC 1321: its digest, worked out from the definition |
| Md5Spec.AbsorbBlock | coap/coap_md5.c:116-116 | absorbing one more block is one more compression (section 3.4 of RFC 1321) |
| Md5.MacroIsOperation | coap/coap_md5.c:43-72 | a step macro does the operation of the indexed definition, though it adds in another order |
| Md5.FourOperations | coap/coap_md5.c:170-173 | four step macros with the registers changing places do four indexed operations |
| Md5.Constants1 | coap/coap_md5.c:170-189 | word order, rotations and sine constants written out in round 1 are those of the table of RFC 1321 |
| Md5.Constants2 | coap/coap_md5.c:192-211 | word order, rotations and sine constants written out in round 2 are those of the table of RFC 1321 |
| Md5.Constants3 | coap/coap_md5.c:214-233 | word order, rotations and sine constants written out in round 3 are those of the table of RFC 1321 |
| Md5.Constants4 | coap/coap_md5.c:236-255 | word order, rotations and sine constants written out in round 4 are those of the table of RFC 1321 |
| Md5.Round1 | coap/coap_md5.c:170-189 | the sixteen unrolled lines of round 1 compute operations 1 to 16 of the indexed definition |
| Md5.Round2 | coap/coap_md5.c:192-211 | the sixteen unrolled lines of round 2 compute operations 17 to 32 of the indexed definition |
| Md5.Round3 | coap/coap_md5.c:214-233 | the sixteen unrolled lines of round 3 compute operations 33 to 48 of the indexed definition |
| Md5.Round4 | coap/coap_md5.c:236-255 | the sixteen unrolled lines of round 4 compute operations 49 to 64 of the indexed definition |
| Md5.Transform | coap/coap_md5.c:163-261 | the 64 unrolled steps are the compression function, for every state and block |
| Md5.ByteFills | coap/coap_md5.c:105-119 | the byte that fills a block completes one compression, and nothing is pending after it |
| Md5.Carry | coap/coap_md5.c:99-103 | the two words hold eight times the length modulo 2^64 although the carry is worked out by comparison |
| Md5.Place | coap/coap_md5.c:97-97 | the place in the block, and the two saved length words, can be read off the count |
| Md5.LastBlock | coap/coap_md5.c:130-147 | padding lands on 56 modulo 64 and the saved length completes the padded message |
| Md5.Context.constructor | coap/coap_md5.c:74-85 | a new context has taken in nothing |
| Md5.Context.Update | coap/coap_md5.c:87-120 | a piece of any length extends the message taken in; whole blocks are absorbed and the tail is in the buffer |
| Md5.Context.Final | coap/coap_md5.c:122-159 | the digest is that of the message taken in |
| Md5.DigestOf | coap/coap_md5.c:74-159 | a message cut into any pieces has the digest of RFC 1321, sections 3.1 to 3.5 |
| CoapList.List.Insert | coap/coap_list.c:47-78 | the new item goes to the place the order function gives; nodes stay linked, distinct and terminated |
| CoapList.List.Get | coap/coap_list.c:82-107 | the data of the first item whose key matches |
| CoapList.List.Delete | coap/coap_list.c:123-157 | the first item whose key matches is unlinked; the iterator survives unless its prefetched node is the one deleted |
| CoapList.List.First | coap/coap_list.c:200-212 | iteration starts at the first node, with the second prefetched |
| CoapList.List.Next | coap/coap_list.c:190-198 | iteration goes on to the prefetched node and reads nothing of the one it leaves |
| CoapList.UnorderedGoesSecond | coap/coap_list.c:67-75 | without an order function a new item goes second, not last as the comment in the code has it |
| CoapPdu.InsertedIsPut | coap/coap_list.c:47-78 | with the order of options, list insertion keeps the codes ascending |
| CoapPdu.DeletedIsUnset | coap/coap_list.c:123-157 | list deletion and lookup by the one-character key act on exactly the option of that code |
| CoapPdu.Pdu.constructor | coap/coap_pdu.c:41-55 | a new message is empty |
| CoapPdu.Pdu.OptionInsert | coap/coap_pdu.c:252-268 | the option is set, in place of one with its code; the list stays ascending; what happens to the counter |
| CoapPdu.Pdu.OptionUnset | coap/coap_pdu.c:315-322 | the option is removed and the counter goes down if one was there |
| CoapPdu.Pdu.OptionGet | coap/coap_pdu.c:311-313 | the option of that code, if any |
| CoapPdu.Pdu.Clean | coap/coap_pdu.c:276-289 | header, payload and options are emptied although the list is deleted from while it is gone through |
| CoapPdu.Pdu.PacketWrite | coap/coap_pdu.c:105-165 | succeeds exactly when no position it checks is past the limit, and then the buffer holds the packet; whether it succeeds or fails, it touches nothing past its extent, and that much is all the room it needs |
| CoapPdu.Pdu.PacketRead | coap/coap_pdu.c:168-249 | accepts exactly the packets that parse, depends on nothing past them, and then holds the parsed message; needs to be able to read only as far as its options take it |
| PduTheorems.WriterStaysInside | coap/coap_pdu.c:139-164 | the writer stays inside a buffer of 1400 bytes if and only if the packet is no longer than that: an accepted message fills its whole size, and one that is turned down is turned down beyond the end |
| PduTheorems.FullPayloadOverruns | coap/coap_pdu.c:159-164 | a payload of 1400 bytes without options is accepted and runs four bytes over |
| PduTheorems.ReaderStaysInside | coap/coap_pdu.c:204-242 | a packet of a legal size is accepted if and only if its options take the reader no further than its end; before turning one down it may look at 270 bytes behind it, no more |
| PduTheorems.ReaderLooksFurthest | coap/coap_pdu.c:204-233 | six bytes that make it look that far |
| PduSpec.PutAllIsSetAll | coap/coap_pdu.c:252-268 | setting options one after the other gives a sorted list and the map in which the last of equal codes wins |
| PduSpec.SortedIsUnique | coap/coap_pdu.c:27-39 | a list ascending by code is determined by its map |
| PduTheorems.AcceptedPacket | coap/coap_pdu.c:168-249 | of any accepted bytes: 4, the options and the payload account for the length exactly; options ascend, at most 15, no code more than 15 above the one before; the last duplicate wins |
| PduTheorems.ReadEncoded | coap/coap_pdu.c:119-128 | the header fields read back from what the writer makes of them |
| PduTheorems.FirstByteBits | coap/coap_pdu.c:119-122 | the first byte of a packet: two bits of version, with the bits of a type above 3 on top of them, two of type, and four of the counter |
| PduTheorems.PacketLayout | coap/coap_pdu.c:119-164 | code, message id with the low byte first, options and payload lie in a packet where section 3.1 has them |
| PduTheorems.OptionLayout | coap/coap_pdu.c:130-157 | an option in a packet: difference of codes in the high half of a byte, length up to 15 in the low half, or 15 there and the rest in a second byte; then the value |
| PduTheorems.OptionIsRead | coap/coap_pdu.c:207-242 | what the reader makes of these bytes, option by option |
| PduTheorems.RoundTrip | coap/coap_pdu.c:105-249 | a message comes back from its packet if and only if version and type fit two bits, there are at most 15 options and the low bits of the counter say how many, codes rise by at most 15, no option is 15 bytes long, and the packet has 6 to 1400 bytes |
| PduTheorems.Reread | coap/coap_pdu.c:105-249 | writing what was read from any packet and reading it again is a fixed point exactly when no option is 15 bytes long and the packet is not too short |
| PduRuns.Perform | coap/coap_pdu.c:252-322 | each operation does to the message what it does to a map and a counter, and a get answers from the map |
| PduRuns.PerformAll | coap/coap_pdu.c:252-322 | any run of operations on a created message agrees with the same run on a map |
| PduRuns.CounterIsExact | coap/coap_pdu.c:252-268 | the option counter is the number of options throughout a run if and only if all 256 codes are never set at once |
| PduRuns.FullCounterSticks | coap/coap_pdu.c:315-322 | once wrapped to 0 the counter stays there when an option is removed |
| PduRuns.Transfer | coap/coap_pdu.c:105-249 | writing one message and reading the packet into another object copies it if and only if the round-trip conditions hold, in any buffer with room for what writer and reader touch |
| PduRuns.EnoughRoom | coap/coap_pdu.c:105-249 | a buffer of the size of the packet has that room for a message that comes back, and 270 bytes more are enough for any |
| CoapQuery.ParseQuery | coap/coap_pdu.c:429-454 | the lookup finds in a buffer that earlier lookups have cut up what the original text says, and cuts it only at separators |
| CoapQuery.Lookups | coap/coap_pdu.c:429-454 | any number of lookups in one buffer each give the first match of the original text |
| CoapQuery.FindsFirstNamed | coap/coap_pdu.c:429-454 | in a text written out from variables the lookup gives the first variable of that name |
| CoapQuery.SeparatorsLater | coap/coap_pdu.c:432-450 | no separator lies inside a name or a value |
| SweepSpec.FirstFound | coap/coap_list.c:123-157 | an entry deleted by its own key takes with it nothing beyond the iterator |
| SweepSpec.EveryEntryOnce | coap/coap_client.c:197-233 | every entry is visited once, whatever is deleted meanwhile: sends and reports are those of all due and all expired entries, in order |
| SweepSpec.SweepIsExact | coap/coap_client.c:197-233 | the entries left are the right ones if and only if no expired token begins the key of an earlier entry that stays |
| SweepSpec.ShorterTokenTakesLonger | coap/coap_client.c:64-66 | with decimal tokens the condition can fail: 1 expires and 12 is deleted |
| SweepSpec.SweepsInClosedForm | coap/coap_client.c:197-233 | with tokens none of which begins another, entries, counts, sends and reports of every sweep of a run are known in advance |
| SweepSpec.FreshEntry | coap/coap_client.c:208-230 | a fresh due entry is sent again once in each of four sweeps and dropped with one report in the fifth |
| CoapClient.Client.CleanPending | coap/coap_client.c:197-233 | one sweep over the linked queue: entries, counts, reports and time stamps, in place; the network grows by one packet for each due request, in order, which carries the fields and the payload of its message and is read as the message wherever that is possible |
| CoapClient.Client.CleanTimes | coap/coap_client.c:197-233 | any number of sweeps: the queue, all reports, and all packets, each of which carries the message of its request |
| CoapClient.PacketsCarry | coap/coap_client.c:229-229 | what is sent for a list of requests is one packet for each, in order, that carries its message |
| CoapClient.SentFourTimes | coap/coap_client.c:208-230 | among tokens none of which begins another, a fresh due request is sent once by each sweep up to four times, and reported once by the fifth |
| CoapClient.Client.Abandon | coap/coap_client.c:197-233 | five sweeps over a single fresh due request put four packets that carry it on the network, report its token once and leave the queue empty |
| CoapClient.TokenIs | coap/coap_client.c:214-219 | the token is the value of option 11, up to a zero byte |
| CacheSpec.EntryDecoded | coap/coap_cache.c:84-156 | a stored response comes back as it was if and only if it meets the round-trip conditions |
| CacheSpec.StoredIsFirstSince | coap/coap_cache.c:69-216 | over any run of add, get and delete, what is stored under a key is the first response added since the last delete |
| CacheSpec.GetIsFirstSince | coap/coap_cache.c:69-156 | over any run, a get returns that response, with time and address, if and only if it meets the round-trip conditions, and nothing if and only if there is none |
| CacheSpec.SameKey | coap/coap_cache.c:9-42 | requests that differ only in message id, payload, options 2, 4 and 11 (Max-Age, ETag and Token) or the order options were set in share a key |
| CacheSpec.HashedBytes | coap/coap_cache.c:9-42 | what is hashed: version, type and code, and then of each option, in order, the code and the value, unless it is one of those three |
| CacheSpec.CollisionsAreExact | coap/coap_cache.c:9-42 | requests hashed from the same bytes have the same version, type and code, and the same relevant options if and only if these are as many and as long, one by one |
| CacheSpec.DifferentRequestsShareKey | coap/coap_cache.c:27-39 | an instance with different lengths: requests with different options that share a key |
| CoapCache.Hash | coap/coap_cache.c:9-42 | the key of a message, fed piecewise into the digest |
| CoapCache.Cache.Add | coap/coap_cache.c:69-112 | stores the packet of the response under the key unless it is taken, whatever the option counter holds |
| CoapCache.Cache.Get | coap/coap_cache.c:114-156 | a new message, decoded from the entry if it can be, with its time and address, exactly when there is one |
| CoapCache.LastingIsReadable | coap/coap_cache.c:114-156 | reading an entry that meets the round-trip conditions stays inside the packet field |
| CoapCache.Cache.Delete | coap/coap_cache.c:205-216 | removes what is under the key |
| CacheRuns.Replay | coap/coap_cache.c:69-216 | any run on messages in memory answers every get from the first response since the last delete: as it was if it meets the round-trip conditions, and with its time and address in any case |

## Left out

- FcgiConnection.Connection.OsRead: sockets, interrupts and blocking are not modelled; a read returns bytes, end or an error.
- FcgiConnection.Connection.WriteItAll: a connection takes a number of bytes in all and then no more, so that a write that succeeds on one stream after a write on the other has failed is not modelled.
- Reader.Stream.GetStr: the bytes are returned as a sequence instead of being copied to a caller's buffer, as in GetLine and GetAll.
- Reader.BuildResponse: has no result where the C code would leave its 64-byte buffer or follow a null pointer (`ReaderSpec.AnsweredExactly` says where), and reading then stops with the code UNDEFINED; the padding of a reply, left unset in C, is zero.
- Reader.Stream.ReadParams: where the size of a parameter overflows the C code writes past a block; the model stops with the code UNDEFINED, or Overflowed for a request.
- Reader.Stream.UnGetChar: where no byte has just been read, the caller must know that there is a place in front of the position, as the code does not look.
- Reader.Stream.FClose: closing a reader twice and reading between the closes is modelled, freeing it is not.
- RequestReading.AcceptRequest: opening the connection, retrying on a new one and `FCGX_Init` are left out.
- RequestReading.RequestIsRead: padding that begins with the version byte is excluded, as it is read as records with what follows it (`AnyBytes.AnyEnvironment`); the connection takes the replies (`CutRequests.EnvironmentRefused` has the other case for the parameters).
- AnyBytes.AnyBytesAreRead: the connection takes the replies, and replies written for the record that stops the reader are not stated.
- KeptConnection.Serve: says nothing of the answers, which are written by other streams.
- FCGX_StartFilterData, HasSeenEOF, ClearError and the printf family are not modelled: they add no state, or rest on the C library.
- Writer buffers are given as arrays whose length is a multiple of eight and at least 24, so `AlignPtr8` is not modelled.
- Md5.Context.Update: pieces are shorter than 2^32 bytes, as the type of the length demands; the total is unbounded.
- CoapPdu.Pdu.OptionInsert: values have at most 270 bytes, the size of the field they are copied into, and memory never runs out; the key is compared by its first character only, so what the library copies past it is not modelled.
- CoapPdu.Pdu.PacketWrite: the caller's buffer has room for all the writer touches; checks of the position before the header is complete can never fail and are left out.
- CoapPdu.Pdu.PacketRead: the memory behind a packet can be read as far as the reader looks; the end-of-packet pointer is not truncated to 32 bits, and the comparison of a pointer before it is set is left out.
- PduRuns.Transfer: the two messages and the buffer are different objects.
- CoapQuery.ParseQuery: the value pointer after a failed lookup is not modelled, only the result.
- CoapClient.Client.CleanPending: the message of a pending request is a value, as a sweep only reads it; its packet has at most 1400 bytes, since the code overruns its buffer for every longer one (`PduTheorems.WriterStaysInside`); the callback does not touch the queue, a missing token option is excluded, and the socket is a list of packets.
- CoapCache.Cache.Add: the database is a map that is always available, and responses have a packet that fits its field; for every other the code writes past it (`PduTheorems.WriterStaysInside`).
- CoapCache.Cache.Get: an entry that takes the reader out of the packet field is excluded; of what a bad packet leaves in the message only the time and address are stated.
- CacheRuns.Replay: gets that would take the reader out of the packet field are excluded, as in Cache.Get.
- The dispatch functions and observe handling of client and server, which mix token and message-id keys, and `coap_cache_revalidate`, `coap_pdu_copy`, `coap_list_clean`, `coap_resource_update` and `coap_server_rd_update`, whose intended results are not what the code computes.
- The socket, signal and stdio wrappers, the proxy's main loop, WebSocket and SQLite code, and URI parsing.
- `coap_rd.c`, `coap_option.c` and `sockset.c`: short lookups in small tables.

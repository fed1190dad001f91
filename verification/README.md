# Verified models of the vendored protocol code

The application's own code is small; what it ships are a TLS library (`ios/Pods/BoringSSL-GRPC`)
and a Protocol Buffers codec (`ios/Pods/nanopb`). This project models their protocol cores in
Dafny and proves what they are for. `dafny verify dfyconfig.toml` checks all of it.

Code that works by changing things step by step is modelled by classes and loops over the same
fields, each method proved against a specification on values; the main results are lemmas about
that specification over all inputs and all runs.

| modules | of | main results |
|---|---|---|
| `ReplayWindow`, `DtlsRecord` | `dtls_record.cc`, `dtls_method.cc` | `NoRecordAcceptedTwice`, `RecordNumbersUnique` |
| `Fragments`, `Reassembly`, `DtlsReceiver` | receiving half of `d1_both.cc` | `MessagesInOrder`, `AvailableIffCovered` |
| `DtlsFlight`, `DtlsSender` | sending half of `d1_both.cc` | `LostIffStops`, `SentIffWritable`, `SendFacts`, `FlightWriter.SendFlight` |
| `DtlsTransport` | both halves over a lossy network | `EndToEnd`, `TransmissionCompletes`, `FlightGetsThrough` |
| `PbVarint`, `PbSchema`, `PbEncode` | `pb_encode.c` | `EncodeCounted`, `EncodeWithin` |
| `PbIter`, `PbDecode` | `pb_common.c`, `pb_decode.c` | `DecodeNoinit`, `FieldIter.FindTag`, `BitsDecide` |
| `PbRoundTrip`, `PbWire` | encoder and decoder together, and the bytes between them | `RoundTrip`, `EncodingIsItsFields`, `OmittedIffInitial` |
| `PbRequired`, `PbBounds`, `PbMerge` | the decoder on any bytes | `DecodedHasRequired`, `MissingIsRefused`, `DecodedFits`, `PackedOrNot` |
| `SslBuffer`, `TlsWrite` | `ssl_buffer.cc`, `s3_pkt.cc`, flushing in `s3_both.cc` | conservation in `TlsWriter.Valid`, `ShortWritesConserve`, `WriteAppData` |
| `TlsFraming` | messages in `s3_both.cc` | `BoundariesDoNotMatter`, `SentIsReceived` |
| `CipherChoice` | `ssl3_choose_cipher` | `ChooseCipher` |
| `TlsHandshake`, `TlsDriver` | the two TLS 1.2 machines and the loops that drive them | `ClientDoneIsSafe`, `ServerDoneIsSafe`, `ClientHandshake.Run` |
| `TlsVerdicts` | what one side made of the answers it got | `ClientWasTold`, `ServerWasTold`, `ClientTakesGood`, `BadCertificateFails` |
| `TlsOrder` | one machine against any peer | `ClientDoneInOrder`, `ServerDoneInOrder`, `LeftoverNeverPasses` |
| `TlsAgreement`, `TlsPauses` | both machines over FIFO channels | `NoRunFails`, `EveryRunAgrees`, `NoPausingRunFails`, `EveryPausingRunAgrees` |

## Reading guide

- A DTLS message is a `Message`; what the network may do to its fragments is any sequence of
  `Deliver` events whose fragments some transmission sent. `Run` is the receiver after such a
  sequence and `Outputs` what it handed over. `HandshakeReader` is the class that computes one
  step.
- `Datagram` and `Send` say what sending a flight comes to, for any record keys and any answers of
  the transport (`bio`); `FlightWriter` is the class that sends, and `Leads` says which records
  took the flight from one position to another. `history` is what was ever added to the writer.
- A nanopb descriptor is a `seq<Field>` and a struct a `seq<Slot>`. `Encoding` and `Decode` say
  what messages and bytes mean; the streams compute them. `Emits` is the contract of everything
  that writes: all of the bytes, or failure within the stream's own part of the memory.
- `TlsWriter.Valid` contains the conservation law: bytes the BIO accepted, then the write buffer,
  then the rest of the pending flight are all that was sealed, in order. `progress` is the
  plaintext sealed for the application write that is going on, `texts` what was sealed record by
  record. `Outside` holds the answers of the BIO, the allocator and the cipher, call by call;
  `Took` and `Refused` say what the BIO answered during a call.
- A handshake side is a `Side`; `CDo` and `SDo` are one turn of a machine. The peer is any sequence
  of moves: a record carries any number of messages and perhaps the start of another. `Deed` records
  the transcript something was computed over and whether its condition held at that moment. The
  script of an honest handshake is `SlotAt`, and `Transcript` what both sides hash. The driving
  classes take the outside's answers in order, and `Took` in `TlsDriver` is the conservation of records.

## Where the code does not do what one would expect

Each of these is proved, with the condition under which it happens.

- A fragment numbered exactly seven past the current message passes the "too far in the future"
  test (d1_both.cc:380-384) but is then refused with an internal-error alert (d1_both.cc:267-271);
  one further is ignored. `Inbox.Problem` and `FaithfulProblem` keep that boundary.
- Message numbers are 16 bits (`NumbersRunOut`), and so are epochs: after 65536 cipher changes a
  packet is accepted again (`EpochWrapAcceptsReplay`). `NoRecordAcceptedTwice` holds for every run
  with fewer.
- When a write counter runs over, that record fails, but the counter is zero again, so a further
  record in the same epoch repeats number 0 (`OneRecordTooMany`). `RecordNumbersUnique` says that
  this is the only way.
- If sealing fails in the middle of a datagram, the position has already moved past the records
  sealed before, which are not sent (`lost`). While ciphers and counters last and the transport
  takes everything, records are lost if and only if the flight has a message that is malformed or of
  neither epoch behind messages that can be written (`LostIffStops`). Nothing is lost of a flight
  without one, whatever the transport answers (`NothingIsLost`), and `SentIffWritable` says when a
  flight gets out. `SendEnds` is about any cipher, and `SealedThenLost` is an instance with one that
  refuses. A BIO failure rolls back properly.
- A string that fills its whole buffer without a terminator is encoded by nanopb, and its encoding
  is refused by nanopb's decoder (`FullStringIsRefused`). `RoundTrip` holds if and only if no such
  string is sent.
- nanopb's decoder goes by a field's type and not by its wire type, so a required field can come
  where the wire types do not show it (`WrongTypeHidesTag`). Where every known field has its own
  wire type the two scans agree (`TypedScanIsPlain`), and then a message that decodes shows all its
  tracked required fields (`DecodedHasRequired`).
- The 32-bit varint decoder accepts some 64-bit numbers of 2^32 and above, cut to 32 bits: exactly
  those whose high digits extend the sign of the low 32 bits (`Varint32OfVarint`).
- The TLS write buffer's offset is a 16-bit field. Every short write keeps conservation, whatever
  the buffer holds, if and only if its contents end within 65536 bytes of the start of the
  allocation (`OffsetRunsOver`, `ShortWritesConserve`, `TlsWriter.ReachDecides`), and a writer can
  get past that (`PastSixteenBits`). That takes about 49 KB of unflushed flight in front of an
  application write, where the code speaks of KeyUpdate acknowledgments and 0-RTT key changes
  (s3_pkt.cc:254-256). `TlsWriter.Fits` is kept by every write; adding a record to the flight keeps
  it if and only if a full record still fits behind it (`AddRecordToFlight`).
- An application write retried with less data than was already sealed is refused, and the position
  is forgotten (s3_pkt.cc:147-161): `WriteAppData` says so.
- A cipher in a preference group whose last entry is still flagged as inside the group is never
  chosen (`UnendedGroup`): `ChooseCipher` returns none in exactly that case, and `GroupsAreClosed`
  shows that lists whose last flag is 0 do not have it.

## Model

| member | source | states |
|---|---|---|
| ReplayWindow.RecordRefines | ios/Pods/BoringSSL-GRPC/ssl/dtls_record.cc:155-175 | Recording a number in the 64-bit word is recording it in the set of seen numbers, for new, old and stale numbers alike: bit i stays set exactly when `top - i` was recorded |
| ReplayWindow.Bitmap.constructor | ios/Pods/BoringSSL-GRPC/ssl/dtls_method.cc:89-91 | A zeroed bitmap stands for nothing seen |
| ReplayWindow.Bitmap.ShouldDiscard | ios/Pods/BoringSSL-GRPC/ssl/dtls_record.cc:140-150 | True exactly for numbers already recorded or at least 64 behind the largest |
| ReplayWindow.Bitmap.Record | ios/Pods/BoringSSL-GRPC/ssl/dtls_record.cc:155-175 | The set of seen numbers grows by exactly this number and the bitmap still refines it |
| ReplayWindow.Bitmap.Reset | ios/Pods/BoringSSL-GRPC/ssl/dtls_method.cc:89-91 | Clearing the bitmap forgets every number |
| DtlsRecord.ToU64Be | ios/Pods/BoringSSL-GRPC/ssl/dtls_record.cc:128-136 | The eight bytes read as one big-endian number below 2^64 |
| DtlsRecord.NumberSplits | ios/Pods/BoringSSL-GRPC/ssl/dtls_record.cc:225-227 | The 64-bit number is the 16-bit epoch followed by the 48-bit sequence |
| DtlsRecord.SequenceUpdate | ios/Pods/BoringSSL-GRPC/ssl/tls_record.cc:154-163 | Adds one to the 48-bit big-endian counter modulo 2^48, leaves the epoch bytes alone, and fails exactly on overflow |
| DtlsRecord.FreshCountersGiveDistinctNumbers | ios/Pods/BoringSSL-GRPC/ssl/dtls_record.cc:294-351 | While no counter that ran over is used again, all sealed records of a connection carry different (epoch, sequence) pairs, retransmission in the previous epoch included |
| DtlsRecord.ReusedCounterRepeatsNumber | ios/Pods/BoringSSL-GRPC/ssl/dtls_record.cc:330-336 | Sealing on a counter that ran over repeats a pair that was already sent |
| DtlsRecord.RecordNumbersUnique | ios/Pods/BoringSSL-GRPC/ssl/dtls_record.cc:294-351 | The two together: record numbers are unique over a connection if and only if no counter is used after it ran over |
| DtlsRecord.OneRecordTooMany | ios/Pods/BoringSSL-GRPC/ssl/dtls_record.cc:330-336 | It can happen: of 2^48 + 1 records sealed in one epoch two carry the same number |
| DtlsRecord.RecordWriter.constructor | ios/Pods/BoringSSL-GRPC/ssl/dtls_method.cc:97-107 | Both sequences start at zero in epoch 0 |
| DtlsRecord.RecordWriter.NumberOnWire | ios/Pods/BoringSSL-GRPC/ssl/dtls_record.cc:326-328 | The eight header bytes of the next record are the (epoch, sequence) pair of the chosen epoch |
| DtlsRecord.RecordWriter.NumberIs | ios/Pods/BoringSSL-GRPC/ssl/dtls_record.cc:314-328 | The number bytes are the big-endian bytes of the counters: what sealing does is determined by the counters and ciphers alone |
| DtlsRecord.WriteKeys.NumberParts | ios/Pods/BoringSSL-GRPC/ssl/dtls_record.cc:308-328 | The first two bytes of a number are the epoch that was chosen, the other six its own sequence |
| DtlsRecord.RecordLayout | ios/Pods/BoringSSL-GRPC/ssl/dtls_record.cc:326-346 | A record is type, version, epoch, sequence and length, big-endian, and the sealed text: section 4.1 of RFC 6347 |
| DtlsRecord.RecordWriter.SealRecord | ios/Pods/BoringSSL-GRPC/ssl/dtls_record.cc:294-351 | The chosen counter moves exactly when the cipher produced text; a record comes out exactly when one number is used up for it, it carries the text sealed under that number, and it fits `max_out` and the overhead bound |
| DtlsRecord.RecordWriter.SetWriteState | ios/Pods/BoringSSL-GRPC/ssl/dtls_method.cc:97-107 | The epoch goes up modulo 2^16, the current cipher and sequence become the previous ones, and the new sequence is zero |
| DtlsRecord.ParseWireRecord | ios/Pods/BoringSSL-GRPC/ssl/dtls_record.cc:190-205 | Parsing a record header undoes writing it, whatever follows in the datagram |
| DtlsRecord.ParsedIsWritten | ios/Pods/BoringSSL-GRPC/ssl/dtls_record.cc:190-205 | What is parsed is what was written: type, version, number, length and body put together again are the front of the input, and `size` is its length |
| DtlsRecord.RecordReader.constructor | ios/Pods/BoringSSL-GRPC/ssl/dtls_method.cc:81-95 | A new reader is in epoch 0 with nothing seen |
| DtlsRecord.RecordReader.OpenRecord | ios/Pods/BoringSSL-GRPC/ssl/dtls_record.cc:177-272 | Result, bytes consumed and new state are those of the specification: closed, empty, malformed, wrong version, wrong epoch, replayed, forged, too long, or accepted and recorded; an alert is handed up |
| DtlsRecord.RecordReader.SetReadState | ios/Pods/BoringSSL-GRPC/ssl/dtls_method.cc:89-94 | The next epoch starts with nothing seen |
| DtlsRecord.SealedRecordOpens | ios/Pods/BoringSSL-GRPC/ssl/dtls_record.cc:177-272 | A record that was sealed opens to its type and text when its epoch is current and its number fresh, and exactly the record is consumed |
| DtlsRecord.OpenIsExact | ios/Pods/BoringSSL-GRPC/ssl/dtls_record.cc:177-272 | A record opens exactly if it has the version and the current epoch, was not seen, is not too old, decrypts and is not too long; then type and text are those of the record and its number joins the window; in each case what is consumed and what the state is |
| DtlsRecord.NothingOpens | ios/Pods/BoringSSL-GRPC/ssl/dtls_record.cc:177-272 | A closed connection, an empty input and one that does not parse give close-notify, partial and discard, and change nothing |
| DtlsRecord.NoRecordAcceptedTwice | ios/Pods/BoringSSL-GRPC/ssl/dtls_record.cc:225-259 | In any run of packets with fewer than 65536 cipher changes, from any epoch, no record number is accepted twice |
| DtlsRecord.EpochWrapAcceptsReplay | ios/Pods/BoringSSL-GRPC/ssl/dtls_method.cc:89-95 | The bound is exact: 65536 cipher changes later the same packet is accepted again |
| Fragments.ParseFragment | ios/Pods/BoringSSL-GRPC/ssl/d1_both.cc:459-473 | A parsed fragment fits its header fields and consumes at least the header |
| Fragments.ParseEncoded | ios/Pods/BoringSSL-GRPC/ssl/d1_both.cc:706-713 | Parsing undoes what the sender assembles, whatever follows |
| Fragments.EncodeParsed | ios/Pods/BoringSSL-GRPC/ssl/d1_both.cc:459-473 | Only the encoding of a fragment parses to it |
| Fragments.HeaderLayout | ios/Pods/BoringSSL-GRPC/ssl/d1_both.cc:511-537 | A fragment header is type, length, number, offset and fragment length, big-endian, as section 4.2.2 of RFC 6347 lays it out |
| Reassembly.BitRange | ios/Pods/BoringSSL-GRPC/ssl/d1_both.cc:203-205 | Exactly bits start to end - 1 of the byte are set |
| Reassembly.MarkBits | ios/Pods/BoringSSL-GRPC/ssl/d1_both.cc:226-236 | After the byte writes the mask has exactly the bits it had before and those of the range |
| Reassembly.MaskComplete | ios/Pods/BoringSSL-GRPC/ssl/d1_both.cc:239-247 | The scan succeeds exactly when every byte of the message was marked |
| Reassembly.HmFragment.constructor | ios/Pods/BoringSSL-GRPC/ssl/d1_both.cc:152-199 | A new message holds nothing, has the single-fragment header, and has no mask exactly if it is empty |
| Reassembly.HmFragment.Mark | ios/Pods/BoringSSL-GRPC/ssl/d1_both.cc:211-251 | The mask tracks the union of the marked ranges and is dropped exactly when the union is the whole message |
| Reassembly.HmFragment.Receive | ios/Pods/BoringSSL-GRPC/ssl/d1_both.cc:393-402 | The bytes of the fragment replace those at their offsets and nothing else; a complete message is left alone |
| Reassembly.HmFragment.Raw | ios/Pods/BoringSSL-GRPC/ssl/d1_both.cc:413-417 | The raw bytes are the single-fragment header and the body received |
| DtlsReceiver.OccupiedSlotMatches | ios/Pods/BoringSSL-GRPC/ssl/d1_both.cc:273-276 | A slot looked up for a number in the window holds that number or nothing: the assertion there cannot fail |
| DtlsReceiver.WindowPut | ios/Pods/BoringSSL-GRPC/ssl/d1_both.cc:289-295 | Filling the slot of a number adds exactly that message and disturbs no other |
| DtlsReceiver.WindowNext | ios/Pods/BoringSSL-GRPC/ssl/d1_both.cc:429-431 | Emptying the current slot and moving on removes exactly the message read |
| DtlsReceiver.HandshakeReader.constructor | ios/Pods/BoringSSL-GRPC/ssl/d1_both.cc:255-259 | A new reader waits for message 0 with all slots empty |
| DtlsReceiver.HandshakeReader.GetIncoming | ios/Pods/BoringSSL-GRPC/ssl/d1_both.cc:265-295 | Finds or creates the message of the fragment, or answers with the alert for a number outside the window or a mismatch; on an alert nothing changes |
| DtlsReceiver.HandshakeReader.Insert | ios/Pods/BoringSSL-GRPC/ssl/d1_both.cc:288-294 | A first fragment gets an empty message in the slot of its number |
| DtlsReceiver.HandshakeReader.ProcessFragment | ios/Pods/BoringSSL-GRPC/ssl/d1_both.cc:362-402 | One fragment changes the inbox as the specification says: refused with the right alert, ignored outside the window, or added; seven past the current message is refused, further is ignored |
| DtlsReceiver.HandshakeReader.CopyBody | ios/Pods/BoringSSL-GRPC/ssl/d1_both.cc:399-402 | The bytes go to the message in the slot, and to no other |
| DtlsReceiver.HandshakeReader.ProcessFragments | ios/Pods/BoringSSL-GRPC/ssl/d1_both.cc:350-405 | All fragments of the record are taken in order until one is refused or malformed |
| DtlsReceiver.HandshakeReader.OpenHandshake | ios/Pods/BoringSSL-GRPC/ssl/d1_both.cc:297-406 | What comes of every record: fragments are taken, a ChangeCipherSpec in the clear is flagged, one that is encrypted or malformed is refused, application data is ignored when encrypted and refused in the clear, an alert is handed up, another type is refused; nothing else changes |
| DtlsReceiver.HandshakeReader.OpenChangeCipherSpec | ios/Pods/BoringSSL-GRPC/ssl/d1_both.cc:475-490 | A flagged ChangeCipherSpec is taken once and its flag cleared; otherwise a record is read, and success means that it was one, in the clear and well formed, while messages in it are kept; no flag stays behind |
| DtlsReceiver.HandshakeReader.GetMessage | ios/Pods/BoringSSL-GRPC/ssl/d1_both.cc:408-424 | Returns the raw current message exactly when it is complete, and notes that one is being read |
| DtlsReceiver.HandshakeReader.NextMessage | ios/Pods/BoringSSL-GRPC/ssl/d1_both.cc:426-438 | Exactly the message read leaves the window, and the window moves by one |
| DtlsReceiver.HandshakeReader.HasUnprocessedHandshakeData | ios/Pods/BoringSSL-GRPC/ssl/d1_both.cc:440-457 | True exactly when a ChangeCipherSpec is flagged or some message other than the one being read has arrived |
| DtlsReceiver.HandshakeReader.SetReadState | ios/Pods/BoringSSL-GRPC/ssl/dtls_method.cc:81-95 | The cipher changes exactly when nothing is left over, and otherwise nothing changes |
| DtlsReceiver.FaithfulProblem | ios/Pods/BoringSSL-GRPC/ssl/d1_both.cc:365-384 | Fragments of the sender are refused only for the size limit, for any number but the current one in epoch 1, or exactly seven past the current one |
| DtlsReceiver.MessagesInOrder | ios/Pods/BoringSSL-GRPC/ssl/d1_both.cc:297-438 | Under any loss, duplication, reordering and cutting, the messages handed over are the sender's from the start number on, byte for byte, each once and in order |
| DtlsReceiver.NumbersAreConsecutive | ios/Pods/BoringSSL-GRPC/ssl/d1_both.cc:265-438 | Whoever the fragments come from, the messages handed over are numbered start, start + 1, ..., modulo 2^16 |
| DtlsReceiver.PendingIsCovered | ios/Pods/BoringSSL-GRPC/ssl/d1_both.cc:387-402 | At any moment the bytes held of a message are those its accepted fragments covered |
| DtlsReceiver.AvailableIffCovered | ios/Pods/BoringSSL-GRPC/ssl/d1_both.cc:255-259 | The next message is available if and only if accepted fragments cover all of it (and one came, if it is empty) |
| DtlsReceiver.NumbersRunOut | ios/Pods/BoringSSL-GRPC/ssl/d1_both.cc:431-438 | The limit of 65536 messages is real: after message 65535 a copy of message 0 is taken for the next one |
| DtlsReceiver.GroupingIsIrrelevant | ios/Pods/BoringSSL-GRPC/ssl/d1_both.cc:350-405 | How fragments are grouped into records makes no difference |
| DtlsReceiver.RecordEnds | ios/Pods/BoringSSL-GRPC/ssl/d1_both.cc:350-405 | After the fragments taken, a record is in order exactly at its end: what cannot be parsed is a decode error, a refused fragment gives its own alert, and neither adds anything |
| DtlsFlight.PiecesAreExact | ios/Pods/BoringSSL-GRPC/ssl/d1_both.cc:644-734 | The pieces sent, put together, are exactly the bytes of the flight up to the position reached: nothing twice, nothing left out |
| DtlsFlight.PiecesCover | ios/Pods/BoringSSL-GRPC/ssl/d1_both.cc:644-734 | Per message: finished messages are covered from 0 to their length, the current one up to the offset, later ones not at all |
| DtlsFlight.ContiguousEnd | ios/Pods/BoringSSL-GRPC/ssl/d1_both.cc:726-733 | Every run of pieces strictly lowers (messages left, bytes left) |
| DtlsFlight.TurnGoes | ios/Pods/BoringSSL-GRPC/ssl/d1_both.cc:644-734 | A record that is sealed carries the next piece of the flight and no other, fits the room and takes the position strictly further; its number is the epoch of its message and that epoch's next sequence, its cipher that epoch's, and exactly that sequence moves by one |
| DtlsFlight.SealedInEpoch | ios/Pods/BoringSSL-GRPC/ssl/d1_both.cc:650-656 | Whatever piece is sealed, of the current or the previous epoch: epoch bytes, sequence bytes, cipher and counter are those of its message's epoch |
| DtlsFlight.TurnIsFull | ios/Pods/BoringSSL-GRPC/ssl/d1_both.cc:681-713 | A message waits only where not one byte of it would fit, and is cut only so that its record, with the cipher's most overhead, fills the room |
| DtlsFlight.DatagramFacts | ios/Pods/BoringSSL-GRPC/ssl/d1_both.cc:739-780 | A datagram is a run of whole records within its size, going on as long as there is room; sealing is refused in it if and only if the turn after its last record fails. It fails as a whole then, or when not one record fits |
| DtlsFlight.SendFacts | ios/Pods/BoringSSL-GRPC/ssl/d1_both.cc:782-827 | For all answers of the transport, the datagrams it took are records that lead exactly from the old position to the one reached, each datagram within the MTU; the lost records go on from there; success means the whole flight was taken and nothing lost |
| DtlsFlight.SendEnds | ios/Pods/BoringSSL-GRPC/ssl/d1_both.cc:796-822 | Sending ends with the flight, with the first refusal of the transport, which is then the result and is rolled back, or with a datagram that could not be sealed, whose records are the ones lost |
| DtlsFlight.TurnFailsIff | ios/Pods/BoringSSL-GRPC/ssl/d1_both.cc:644-734 | While ciphers and counters last, sealing a piece fails if and only if the message is malformed or of neither epoch |
| DtlsFlight.DatagramFailsIff | ios/Pods/BoringSSL-GRPC/ssl/d1_both.cc:739-780 | While ciphers and counters last, sealing is refused in a datagram if and only if it comes to such a message, and it has a record if and only if its first message can be written |
| DtlsFlight.LostIffStops | ios/Pods/BoringSSL-GRPC/ssl/d1_both.cc:754-755 | While ciphers and counters last and the transport takes everything, sealed records are lost if and only if the flight has a malformed message, or one of neither epoch, behind at least one message, and everything before it can be written; for other transports only then |
| DtlsFlight.NothingIsLost | ios/Pods/BoringSSL-GRPC/ssl/d1_both.cc:782-827 | So nothing is ever lost of a flight whose messages are well formed and of the two epochs, whatever the transport answers |
| DtlsFlight.WritableIsSent | ios/Pods/BoringSSL-GRPC/ssl/d1_both.cc:782-827 | Where the transport takes everything and every message can be written, the flight is sent to its end and the flush decides the result |
| DtlsFlight.SentIffWritable | ios/Pods/BoringSSL-GRPC/ssl/d1_both.cc:782-827 | Where the transport takes everything and ciphers and counters last, a flight is sent if and only if each message left is well formed, of the current or the previous epoch, and has room for a byte |
| DtlsFlight.SealedThenLost | ios/Pods/BoringSSL-GRPC/ssl/d1_both.cc:754-755 | A handshake message and a ChangeCipherSpec that the cipher refuses: the first record is sealed, uses up number 0 and is dropped, and the position stays behind it |
| DtlsSender.FlightWriter.EpochMismatchUnreachable | ios/Pods/BoringSSL-GRPC/ssl/d1_both.cc:650-656 | The epoch check cannot fail when the write state changed at most once since the flight was begun |
| DtlsSender.FlightWriter.constructor | ios/Pods/BoringSSL-GRPC/ssl/d1_both.cc:500-509 | A new writer has no flight |
| DtlsSender.FlightWriter.Clear | ios/Pods/BoringSSL-GRPC/ssl/d1_both.cc:500-509 | The flight is empty, the position at its start, and sequence and MTU are kept |
| DtlsSender.FlightWriter.Assemble | ios/Pods/BoringSSL-GRPC/ssl/d1_both.cc:511-537 | The bytes are the whole message as one fragment under the next number, its length filled in from the body's; a body of 2^24 bytes or more has none |
| DtlsSender.FlightWriter.AddMessage | ios/Pods/BoringSSL-GRPC/ssl/d1_both.cc:511-594 | The message joins the flight under the number of messages before it; all messages of the connection stay assembled and numbered without a gap |
| DtlsSender.AssembledGrows | ios/Pods/BoringSSL-GRPC/ssl/d1_both.cc:555-590 | A flight assembled from the messages so far stays so with one more under the next number, or a ChangeCipherSpec |
| DtlsSender.FlightWriter.AddOutgoing | ios/Pods/BoringSSL-GRPC/ssl/d1_both.cc:555-594 | A finished flight is dropped first; the message is appended with the current epoch exactly when there is room; only handshake messages use a number; the flight stays assembled exactly if the bytes are a message under the next number |
| DtlsSender.FlightWriter.NoteReply | ios/Pods/BoringSSL-GRPC/ssl/d1_both.cc:433-437 | A finished flight, and only one, is marked as answered |
| DtlsSender.FlightWriter.OnHandshakeComplete | ios/Pods/BoringSSL-GRPC/ssl/dtls_method.cc:71-79 | An answered flight is dropped; one without an answer stays as it is for retransmission |
| DtlsSender.FlightWriter.SetWriteState | ios/Pods/BoringSSL-GRPC/ssl/dtls_method.cc:97-107 | The keys are those of the next epoch: the new cipher from sequence 0, the old one with its sequence kept for the epoch before; every message of an open flight stays in one of the two after one change |
| DtlsSender.FlightWriter.SealPiece | ios/Pods/BoringSSL-GRPC/ssl/d1_both.cc:668-724 | Record and keys are those that sealing this piece comes to, in value and in failure |
| DtlsSender.FlightWriter.SealNextMessage | ios/Pods/BoringSSL-GRPC/ssl/d1_both.cc:644-734 | Result, bytes, keys and offset are those of the turn: an error exactly if it fails, no progress exactly if not one byte fits, and otherwise the next piece's record and the position behind it |
| DtlsSender.FlightWriter.SealNextPacket | ios/Pods/BoringSSL-GRPC/ssl/d1_both.cc:739-780 | Success, bytes, position and keys are those of the datagram: it succeeds exactly if it has a record and no turn of it failed |
| DtlsSender.FlightWriter.UpdateMtu | ios/Pods/BoringSSL-GRPC/ssl/d1_both.cc:615-632 | A sufficient MTU is kept; another becomes the answer of the BIO if that is in range, and the default if not; the result is at least the minimum |
| DtlsSender.FlightWriter.SendDatagrams | ios/Pods/BoringSSL-GRPC/ssl/d1_both.cc:792-822 | For any answers of the BIO, result, position, keys and the bytes of every datagram taken are those that sending comes to |
| DtlsSender.FlightWriter.SendFlight | ios/Pods/BoringSSL-GRPC/ssl/d1_both.cc:782-827 | The same with the shutdown test and the MTU before it; what was taken extends the records accepted so far, and the flight stays intact exactly if nothing was lost |
| DtlsSender.FlightWriter.FlushFlight | ios/Pods/BoringSSL-GRPC/ssl/d1_both.cc:829-834 | The flight is closed to further messages and sent from its position |
| DtlsSender.FlightWriter.Retransmit | ios/Pods/BoringSSL-GRPC/ssl/d1_both.cc:836-845 | The flight is sent from its start, whatever was sent before; after success the records the BIO took lead through the whole flight |
| DtlsTransport.PieceIsFaithful | ios/Pods/BoringSSL-GRPC/ssl/d1_both.cc:679-713 | Every piece of an assembled flight is a piece of the message with its number |
| DtlsTransport.EndToEnd | ios/Pods/BoringSSL-GRPC/ssl/d1_both.cc:297-438 | Whatever part of whatever transmissions arrives, in any order and number, the messages handed over are the sender's, byte for byte, each once and in order |
| DtlsTransport.WriterSends | ios/Pods/BoringSSL-GRPC/ssl/d1_both.cc:511-827 | Every record a flight writer got accepted, whatever was lost before, carries a piece of the messages added to it, whatever is added later; if nothing was lost, they lead to its position |
| DtlsTransport.RecordDelivers | ios/Pods/BoringSSL-GRPC/ssl/d1_both.cc:297-406 | A handshake record the sender sealed for a message of the current epoch, arriving fresh, opens to exactly its fragment, and taking it is one delivery, with the alert it deserves if any |
| DtlsTransport.CcsDelivers | ios/Pods/BoringSSL-GRPC/ssl/d1_both.cc:297-335 | A ChangeCipherSpec the sender sealed in the current epoch, arriving fresh, opens to a ChangeCipherSpec of the one byte 1 |
| DtlsTransport.WindowMovesOn | ios/Pods/BoringSSL-GRPC/ssl/d1_both.cc:426-438 | The window never moves back: what is in it or behind it stays so |
| DtlsTransport.LaterIsInTime | ios/Pods/BoringSSL-GRPC/ssl/d1_both.cc:362-402 | A fragment whose number is in or behind the window at one moment arrives in time whenever it arrives after that |
| DtlsTransport.EveryFragmentCounts | ios/Pods/BoringSSL-GRPC/ssl/d1_both.cc:362-402 | Every fragment counts that arrives while its number is less than seven past the one being read, unless its message has been read by then |
| DtlsTransport.TransmissionCompletes | ios/Pods/BoringSSL-GRPC/ssl/d1_both.cc:782-827 | Once all fragments of one full transmission of a message have arrived in the window of their time, mixed with anything else the sender sent, the message is complete and equal to the original, or was read |
| DtlsTransport.FlightGetsThrough | ios/Pods/BoringSSL-GRPC/ssl/d1_both.cc:782-827 | After one full transmission of any flight has arrived so, with everything before it read, reading yields every message of it |
| PbVarint.VarintBytes | ios/Pods/nanopb/pb_encode.c:574-594 | The loop writes exactly the base-128 digits, at most ten bytes |
| PbVarint.Varint64RoundTrip | ios/Pods/nanopb/pb_decode.c:250-270 | The 64-bit decoder reads back every encoded number and stops right behind it |
| PbVarint.Varint32RoundTrip | ios/Pods/nanopb/pb_decode.c:182-242 | On encoder output the 32-bit decoder reads back every number below 2^32 |
| PbVarint.Varint32OfVarint | ios/Pods/nanopb/pb_decode.c:182-242 | Of the larger 64-bit numbers it accepts exactly those whose high digits are a sign extension, reduced modulo 2^32, and refuses the others |
| PbVarint.NegativesAreTaken | ios/Pods/nanopb/pb_decode.c:221-229 | Every negative 32-bit number written as a 64-bit varint is accepted as its two's complement |
| PbVarint.SignedRoundTrip | ios/Pods/nanopb/pb_decode.c:1289-1324 | A signed field of 1, 2, 4 or 8 bytes comes back through the sign extension |
| PbVarint.ZigZagRoundTrip | ios/Pods/nanopb/pb_decode.c:1240-1252 | Zigzag decoding undoes zigzag encoding and stays within 64 bits |
| PbVarint.ZigZagBits | ios/Pods/nanopb/pb_encode.c:596-605 | The shift and complement compute the zigzag number |
| PbVarint.UnZigZagBits | ios/Pods/nanopb/pb_decode.c:1240-1252 | The shift and complement compute its inverse |
| PbVarint.LittleEndianRoundTrip | ios/Pods/nanopb/pb_encode.c:607-633 | Fixed-size numbers come back from their little-endian bytes |
| PbWire.VarintSamples | ios/Pods/nanopb/pb_encode.c:574-594 | 3, 150, 270 and 86942 are 03, 96 01, 8E 02 and 9E A7 05 |
| PbWire.NumberSamples | ios/Pods/nanopb/pb_encode.c:734-791 | Field 1 with 150 is 08 96 01; with -1 it is a tag and ten bytes, or 08 01 with zigzag |
| PbWire.FixedSamples | ios/Pods/nanopb/pb_encode.c:607-633 | Fixed-size fields are their tag and the number, least significant byte first |
| PbWire.DelimitedSamples | ios/Pods/nanopb/pb_encode.c:674-732 | A string and a message inside another are tag, length and contents |
| PbWire.PackedSample | ios/Pods/nanopb/pb_encode.c:137-180 | 3, 270 and 86942 packed in field 4 are 22 06 03 8E 02 9E A7 05 |
| PbEncode.EmitsBoth | ios/Pods/nanopb/pb_encode.c:101-119 | Writing one thing and then another succeeds exactly when both together fit, and writes both |
| PbEncode.EmitsNot | ios/Pods/nanopb/pb_encode.c:101-119 | When the first part does not fit, the whole does not |
| PbEncode.OStream.FromBuffer | ios/Pods/nanopb/pb_encode.c:84-99 | A stream over a part of a buffer has written nothing |
| PbEncode.OStream.Sizing | ios/Pods/nanopb/pb_encode.c:533-542 | A counting stream has written nothing and takes everything |
| PbEncode.OStream.Write | ios/Pods/nanopb/pb_encode.c:101-119 | Succeeds exactly when the bytes fit; then exactly these bytes are appended, and nothing outside the stream's part of the buffer changes either way |
| PbEncode.OStream.Count | ios/Pods/nanopb/pb_encode.c:707-709 | Counting a size is writing that many bytes to a counting stream |
| PbEncode.EncodeVarint | ios/Pods/nanopb/pb_encode.c:574-594 | Emits the varint, or fails within the stream |
| PbEncode.EncodeTag | ios/Pods/nanopb/pb_encode.c:635-639 | Emits field number and wire type as one varint |
| PbEncode.EncodeString | ios/Pods/nanopb/pb_encode.c:674-680 | Emits the length prefix and the bytes |
| PbEncode.EncodeFixed | ios/Pods/nanopb/pb_encode.c:607-633 | Emits the little-endian bytes |
| PbEncode.EncodeScalar | ios/Pods/nanopb/pb_encode.c:734-808 | Emits the field's value in its wire form, or fails for an invalid size |
| PbEncode.EncodeValue | ios/Pods/nanopb/pb_encode.c:734-869 | Emits the value of any field type; a bytes value over its capacity fails |
| PbEncode.EncodeSubmessage | ios/Pods/nanopb/pb_encode.c:682-730 | Emits the length and the submessage at every nesting depth, in the buffer and in the counting stream alike |
| PbEncode.EncodeWithin | ios/Pods/nanopb/pb_encode.c:710-731 | The second pass writes exactly the size of the first: the "submsg size changed" failure cannot happen |
| PbEncode.Encode | ios/Pods/nanopb/pb_encode.c:494-516 | Emits the fields of the message in order, or fails exactly when one cannot be encoded or all do not fit |
| PbEncode.GetEncodedSize | ios/Pods/nanopb/pb_encode.c:533-542 | The length of what encoding would write, for exactly the messages that can be encoded |
| PbEncode.EncodeCounted | ios/Pods/nanopb/pb_encode.c:533-542 | A counting pass and a writing pass over the same message: counting succeeds exactly if it can be encoded, writing exactly if the count fits the buffer, and then exactly the counted bytes are the encoding |
| PbEncode.EncodeField | ios/Pods/nanopb/pb_encode.c:307-392 | Emits a field by its repetition rule: optional ones only when present, proto3 ones only when not default |
| PbEncode.EncodeTagged | ios/Pods/nanopb/pb_encode.c:641-672 | Emits the tag for the field's type and the value |
| PbEncode.EncodeArray | ios/Pods/nanopb/pb_encode.c:126-211 | Emits nothing for an empty array, fails over the capacity, packs what can be packed, and tags each item otherwise |
| PbEncode.EncodePacked | ios/Pods/nanopb/pb_encode.c:137-180 | Emits one tag, the total length and the items |
| PbEncode.PackedSize | ios/Pods/nanopb/pb_encode.c:143-166 | The computed or counted size is the size of the items |
| PbEncode.EncodeAll | ios/Pods/nanopb/pb_encode.c:172-180 | Emits the items without tags |
| PbEncode.CheckDefault | ios/Pods/nanopb/pb_encode.c:215-303 | True exactly for fields that need not be sent |
| PbIter.FieldIter.constructor | ios/Pods/nanopb/pb_common.c:8-18 | The iterator starts at the first field with the prefix sums of position 0 |
| PbIter.FieldIter.Begin | ios/Pods/nanopb/pb_common.c:8-18 | Position, data and size pointers and required index are those of the first field |
| PbIter.FieldIter.Next | ios/Pods/nanopb/pb_common.c:20-76 | Moves to the next field and keeps data pointer, size pointer and required index equal to the sums over all fields before it, unions included; wraps around at the end |
| PbIter.FieldIter.FindTag | ios/Pods/nanopb/pb_common.c:78-95 | Finds the first field with the tag from the current position round, from any position, and restores the position if there is none; on an empty descriptor the terminator answers to tag 0 |
| PbIter.FindFromAnywhere | ios/Pods/nanopb/pb_common.c:78-95 | With distinct tags the search finds the field wherever it starts |
| PbIter.RequiredBits.constructor | ios/Pods/nanopb/pb_decode.c:903-904 | Nothing is marked at first |
| PbIter.RequiredBits.Mark | ios/Pods/nanopb/pb_decode.c:988-992 | Exactly this index is added to the set |
| PbIter.RequiredBits.AllSeen | ios/Pods/nanopb/pb_decode.c:1027-1046 | The word and remainder checks pass exactly when every index below the count was marked |
| PbDecode.IStream.FromBuffer | ios/Pods/nanopb/pb_decode.c:154-176 | A stream over a part of the input |
| PbDecode.IStream.ReadByte | ios/Pods/nanopb/pb_decode.c:136-152 | Takes exactly one byte, or fails on an empty stream; position plus bytes left is kept |
| PbDecode.IStream.Read | ios/Pods/nanopb/pb_decode.c:100-132 | Takes exactly `count` bytes, or fails; position plus bytes left is kept |
| PbDecode.IStream.DecodeVarint | ios/Pods/nanopb/pb_decode.c:250-270 | Reads a varint of at most ten bytes as the specification does |
| PbDecode.IStream.DecodeVarint32 | ios/Pods/nanopb/pb_decode.c:182-242 | Reads a 32-bit varint with its overflow and sign-extension rules, and reports the end of the stream |
| PbDecode.IStream.DecodeTag | ios/Pods/nanopb/pb_decode.c:293-314 | Malformed, end of message, or field number and wire type |
| PbDecode.IStream.SkipField | ios/Pods/nanopb/pb_decode.c:316-326 | Skips exactly one value of the wire type, or fails |
| PbDecode.IStream.PassVarint | ios/Pods/nanopb/pb_decode.c:273-282 | Skips up to the first byte without a continuation bit |
| PbDecode.IStream.MakeSubstream | ios/Pods/nanopb/pb_decode.c:367-380 | The substream covers exactly the delimited part; the parent gives up exactly these bytes |
| PbDecode.IStream.CloseSubstream | ios/Pods/nanopb/pb_decode.c:382-395 | The parent ends up right behind the substream however much of it was read |
| PbDecode.DecodeScalar | ios/Pods/nanopb/pb_decode.c:1240-1385 | The scalar value and the rest, or failure for values the field cannot hold |
| PbDecode.JoinBytes | ios/Pods/nanopb/pb_decode.c:1254-1284 | The shifts compute the little-endian number |
| PbDecode.DecodeBlob | ios/Pods/nanopb/pb_decode.c:1391-1461 | Length prefix and bytes, or failure over the limit |
| PbDecode.DecodeValue | ios/Pods/nanopb/pb_decode.c:1289-1508 | The value of any field type and the rest of the input, as specified |
| PbDecode.DecodeSubmessage | ios/Pods/nanopb/pb_decode.c:1463-1485 | A submessage is decoded within its substream, and the parent continues right behind it |
| PbDecode.DecodePacked | ios/Pods/nanopb/pb_decode.c:420-447 | The packed items are appended until the substream is used up, or failure when they exceed the capacity |
| PbDecode.DecodeField | ios/Pods/nanopb/pb_decode.c:401-475 | The field's slot is changed as its repetition rule says and the others are kept, except members of the same union |
| PbDecode.RequiredCount | ios/Pods/nanopb/pb_decode.c:1008-1024 | The number of required fields that are tracked, found by iterating to the end |
| PbDecode.BitsDecide | ios/Pods/nanopb/pb_decode.c:1006-1046 | The bit set passes exactly when every required field among the first 64 was seen |
| PbDecode.FindField | ios/Pods/nanopb/pb_decode.c:933-962 | Finds the field of a tag together with its index among the required fields |
| PbDecode.DecodeNoinit | ios/Pods/nanopb/pb_decode.c:901-1049 | Contents, rest and success for any order, repetition and unknown fields of the input, as specified; it fails when a tracked required field was not seen (`DecodedHasRequired`) |
| PbDecode.DecodeMessage | ios/Pods/nanopb/pb_decode.c:1051-1063 | Decoding starts from the initial contents |
| PbRoundTrip.RestoredIsSame | ios/Pods/nanopb/pb_decode.c:812-899 | What comes back has the same presence, counts and values at every depth |
| PbRoundTrip.ZeroIsInitial | ios/Pods/nanopb/pb_encode.c:215-303 | What proto3 leaves out as default is what decoding starts with |
| PbRoundTrip.ScalarRoundTrip | ios/Pods/nanopb/pb_encode.c:734-808 | Every scalar type comes back, whatever follows |
| PbRoundTrip.PackedRoundTrip | ios/Pods/nanopb/pb_decode.c:420-447 | Packed items come back one by one |
| PbRoundTrip.SubmessageRoundTrip | ios/Pods/nanopb/pb_decode.c:1463-1485 | A nested message comes back |
| PbRoundTrip.MessageRoundTrip | ios/Pods/nanopb/pb_encode.c:494-516 | A message whose strings are terminated comes back with everything absent at its initial contents |
| PbRoundTrip.ValueRefused | ios/Pods/nanopb/pb_decode.c:1428-1461 | A string that fills its buffer is encoded but refused by the decoder |
| PbRoundTrip.MessageRefused | ios/Pods/nanopb/pb_decode.c:1428-1461 | A message with such a string anywhere is refused as a whole |
| PbRoundTrip.RoundTrip | ios/Pods/nanopb/pb_decode.c:1051-1063 | For every well-formed descriptor and every message that encodes to less than 4 GB: decoding succeeds, uses up the input and restores presence, counts and values if and only if every string leaves room for its terminator |
| PbRoundTrip.FullStringIsRefused | ios/Pods/nanopb/pb_decode.c:1428-1461 | A one-byte string in a one-byte buffer encodes to 0A 01 41, which is refused |
| PbWire.EncodingIsItsFields | ios/Pods/nanopb/pb_encode.c:494-516 | Without the descriptor, taken apart by wire types alone, the bytes of any message are its fields in order: one entry with tag and value for each value that is there, one for all items of a packed array, and nothing else |
| PbWire.OmittedIffInitial | ios/Pods/nanopb/pb_encode.c:215-305 | A field leaves no bytes if and only if it holds what a message starts with and is not one that always goes out (required, of fixed-length bytes, or a message with such a field inside) |
| PbWire.DefaultIsInitial | ios/Pods/nanopb/pb_encode.c:215-303 | The recursive proto3 test is true exactly of initial contents, but for what always goes out |
| PbRequired.DecodedHasRequired | ios/Pods/nanopb/pb_decode.c:1006-1046 | Whatever the bytes, if they decode then the tag of every tracked required field is among those a scan of the top level meets, and where the wire types are those of the fields, a scan by wire types alone |
| PbRequired.MissingIsRefused | ios/Pods/nanopb/pb_decode.c:1006-1046 | The encoding of a message with one tracked required field left out is refused, for every such field and whatever the others hold |
| PbRequired.SixtyFourAreTracked | ios/Pods/nanopb/pb_decode.c:988-1046 | Of required fields alone exactly the first 64 are tracked |
| PbRequired.TypedScanIsPlain | ios/Pods/nanopb/pb_decode.c:316-326 | Scanning by field types meets the same tags as scanning by wire types if every known field has the wire type of its field |
| PbRequired.MessageIsScanned | ios/Pods/nanopb/pb_encode.c:494-516 | An encoding contains no tags but those of its fields |
| PbRequired.WrongTypeHidesTag | ios/Pods/nanopb/pb_decode.c:401-475 | Otherwise it need not: 12 01 08 05 decodes with required field 1 although its wire types show field 2 only |
| PbBounds.DecodedFits | ios/Pods/nanopb/pb_decode.c:901-1049 | Whatever the bytes, a decoded message fits its struct: numbers in range, strings and bytes within their buffers, arrays within their capacity, at every depth |
| PbBounds.UnknownIsSkipped | ios/Pods/nanopb/pb_decode.c:316-326 | A field that the descriptor does not have is passed over and changes nothing |
| PbMerge.LastOneWins | ios/Pods/nanopb/pb_decode.c:411-417 | Of two copies of a field that is no array, union member or message only the second counts, whatever stands before and after |
| PbMerge.LastMemberWins | ios/Pods/nanopb/pb_decode.c:463-474 | Of two members of a union the later one is chosen, the others are not, and no other field differs |
| PbMerge.PackedOrNot | ios/Pods/nanopb/pb_decode.c:420-460 | A packable array is decoded the same whether its items come packed or with a tag each, added to whatever it held |
| PbMerge.ItemsAreTaken | ios/Pods/nanopb/pb_decode.c:450-460 | Items with a tag each add to what the array held, in order |
| PbMerge.PackedIsTaken | ios/Pods/nanopb/pb_decode.c:420-447 | So do packed ones, all at once |
| PbMerge.FullArrayRefuses | ios/Pods/nanopb/pb_decode.c:430-457 | An array at its capacity refuses one more item, packed or not |
| PbMerge.EmptyCopyKeeps | ios/Pods/nanopb/pb_decode.c:1463-1481 | A second copy of a message inside is read over the first: an empty one changes nothing |
| PbMerge.ZeroTagEnds | ios/Pods/nanopb/pb_decode.c:293-312 | A zero tag ends the message, whatever follows, if nothing required is missing |
| PbMerge.NoBytesSetNothing | ios/Pods/nanopb/pb_decode.c:812-899 | No bytes decode to initial values with nothing present, chosen or added |
| PbMerge.NoFixedBytesAreZeros | ios/Pods/nanopb/pb_decode.c:1497-1502 | Bytes of a fixed length that come as none at all are zeros |
| SslBuffer.Buffer.constructor | ios/Pods/BoringSSL-GRPC/ssl/ssl_buffer.cc:39-45 | A new buffer is empty |
| SslBuffer.Buffer.Clear | ios/Pods/BoringSSL-GRPC/ssl/ssl_buffer.cc:39-45 | The buffer is empty and its memory gone |
| SslBuffer.Buffer.EnsureCap | ios/Pods/BoringSSL-GRPC/ssl/ssl_buffer.cc:47-81 | Succeeds exactly if the capacity fits 16 bits and is there or can be allocated; the contents are kept, and a new allocation has them at the aligned offset |
| SslBuffer.Buffer.Append | ios/Pods/BoringSSL-GRPC/ssl/ssl_buffer.cc:83-88 | The bytes follow the contents |
| SslBuffer.Buffer.Consume | ios/Pods/BoringSSL-GRPC/ssl/ssl_buffer.cc:90-97 | The front goes and the rest stays, unless the 16-bit offset runs over with bytes left; then the contents are the bytes of the allocation that lie there |
| SslBuffer.OffsetRunsOver | ios/Pods/BoringSSL-GRPC/ssl/ssl_buffer.cc:94-97 | For any allocation, offset, size and length: the rest survives whatever the bytes are if and only if the offset stays within 16 bits or nothing is left |
| TlsWrite.BufferDrains | ios/Pods/BoringSSL-GRPC/ssl/ssl_buffer.cc:242-250 | A short write from the write buffer keeps conservation |
| TlsWrite.FlightDrains | ios/Pods/BoringSSL-GRPC/ssl/s3_both.cc:257-269 | A short write from the pending flight keeps conservation when the write buffer is empty |
| TlsWrite.FlightGrows | ios/Pods/BoringSSL-GRPC/ssl/s3_both.cc:147-164 | Sealing into the flight keeps conservation |
| TlsWrite.FlightMoves | ios/Pods/BoringSSL-GRPC/ssl/s3_pkt.cc:254-266 | Moving the unflushed flight into the empty write buffer keeps conservation |
| TlsWrite.BufferGrows | ios/Pods/BoringSSL-GRPC/ssl/s3_pkt.cc:268-274 | Sealing into the write buffer keeps conservation when no flight is pending |
| TlsWrite.ShortWriteConserves | ios/Pods/BoringSSL-GRPC/ssl/ssl_buffer.cc:242-250 | A short write keeps conservation if and only if what is left in the buffer is the rest of it |
| TlsWrite.ShortWritesConserve | ios/Pods/BoringSSL-GRPC/ssl/ssl_buffer.cc:90-97 | Every short write keeps conservation, whatever the queues hold, if and only if the buffer reaches no further than 65536 bytes into its allocation |
| TlsWrite.PastSixteenBits | ios/Pods/BoringSSL-GRPC/ssl/s3_pkt.cc:237-283 | A writer gets past that, through three full records of a flight and a record behind them |
| TlsWrite.TlsWriter.constructor | ios/Pods/BoringSSL-GRPC/ssl/s3_pkt.cc:129-200 | A new writer has sealed and sent nothing and asked nothing of the outside |
| TlsWrite.TlsWriter.ReachDecides | ios/Pods/BoringSSL-GRPC/ssl/ssl_buffer.cc:239-256 | Some short write of this writer breaks conservation for some contents if and only if its buffer reaches past 16 bits |
| TlsWrite.TlsWriter.WriteBufferFlush | ios/Pods/BoringSSL-GRPC/ssl/ssl_buffer.cc:239-252 | Returns 1 with the buffer empty if the BIO took every write, and otherwise the first answer that is not positive; as long as the contents fit 16 bits, what was accepted and what is left are what was there, in order |
| TlsWrite.TlsWriter.WriteSome | ios/Pods/BoringSSL-GRPC/ssl/ssl_buffer.cc:242-250 | One write of the loop: what the BIO takes leaves the front of the buffer, or its refusal is the result |
| TlsWrite.TlsWriter.AddRecordToFlight | ios/Pods/BoringSSL-GRPC/ssl/s3_both.cc:135-165 | The record that sealing the text yields is appended to the flight and to what was sealed, or nothing changes if there is none; the flight still fits 16 bits if and only if the record leaves room for a full one behind it |
| TlsWrite.TlsWriter.WriteFlight | ios/Pods/BoringSSL-GRPC/ssl/s3_both.cc:257-269 | Returns 1 with all of the flight written if the BIO took every write, and otherwise its first refusal; accepted bytes and the rest of the flight are what they were together |
| TlsWrite.TlsWriter.WriteSomeFlight | ios/Pods/BoringSSL-GRPC/ssl/s3_both.cc:257-269 | One write of that loop |
| TlsWrite.TlsWriter.WriteQueues | ios/Pods/BoringSSL-GRPC/ssl/s3_both.cc:246-269 | Write buffer and then flight are written if the BIO takes every write, and otherwise its first refusal is the result |
| TlsWrite.TlsWriter.FlushFlight | ios/Pods/BoringSSL-GRPC/ssl/s3_both.cc:231-279 | The write buffer goes first; success means that both queues were written by a BIO that took every write and flushed, and the flight is gone; failure has its reason in a shutdown, a flight too long, a refused write or a refused flush |
| TlsWrite.TlsWriter.WritePending | ios/Pods/BoringSSL-GRPC/ssl/s3_pkt.cc:202-218 | A retry with other arguments is refused with nothing written; a compatible one flushes the pending record, and fails only as the BIO does |
| TlsWrite.TlsWriter.DoWrite | ios/Pods/BoringSSL-GRPC/ssl/s3_pkt.cc:221-289 | A pending record is never sealed again; otherwise the record that goes behind the flight carries exactly this text, and it fails only for a text too long or empty, a buffer in use, want of memory, a cipher that refuses, or as the BIO does |
| TlsWrite.TlsWriter.WriteNew | ios/Pods/BoringSSL-GRPC/ssl/s3_pkt.cc:237-290 | A new record goes out at once, or stays pending because the BIO refused, or is not sealed for want of memory or a record |
| TlsWrite.TlsWriter.PutRecord | ios/Pods/BoringSSL-GRPC/ssl/s3_pkt.cc:237-285 | Succeeds exactly if there is room or memory and the cipher seals; then flight and record are in the buffer, in this order, and the record is the pending one with this text |
| TlsWrite.TlsWriter.MoveFlight | ios/Pods/BoringSSL-GRPC/ssl/s3_pkt.cc:237-266 | Succeeds exactly if flight and record fit the buffer's capacity or the allocator's; then the flight is in the write buffer and nowhere else, and otherwise where it was |
| TlsWrite.TlsWriter.SealIntoBuffer | ios/Pods/BoringSSL-GRPC/ssl/s3_pkt.cc:268-274 | The record that sealing the text yields is behind everything already in the buffer, or nothing changes if there is none or it does not fit |
| TlsWrite.TlsWriter.WriteChunk | ios/Pods/BoringSSL-GRPC/ssl/s3_pkt.cc:162-198 | Over one turn the plaintext sealed so far is a prefix of the caller's data of length `tot` plus the pending record; early data that was written is counted, and at the ticket's limit the turn stops; if only the BIO can refuse and does not, the turn writes as much as it may |
| TlsWrite.OneMoreRecord | ios/Pods/BoringSSL-GRPC/ssl/s3_pkt.cc:268-274 | One more sealed record is one more plaintext in the sequence of records, under the next number |
| TlsWrite.TlsWriter.WriteRecord | ios/Pods/BoringSSL-GRPC/ssl/s3_pkt.cc:188-191 | One record of application data; where nothing else refuses, a failure is the BIO's |
| TlsWrite.TlsWriter.WriteFrom | ios/Pods/BoringSSL-GRPC/ssl/s3_pkt.cc:159-199 | The loop from where the write stopped, with the position kept when it fails and early data counted |
| TlsWrite.TlsWriter.WriteAppData | ios/Pods/BoringSSL-GRPC/ssl/s3_pkt.cc:129-200 | Over any sequence of failed and resumed calls the plaintext sealed is exactly `data[..wnum + pending]`; a positive result r means exactly `data[..r]` was sealed once, in records that stay part of what was sealed, and flushed; early data stays within the ticket's limit; all is written if only the BIO can refuse and does not; a length below what was sealed is refused |
| TlsFraming.EncodedIsComplete | ios/Pods/BoringSSL-GRPC/ssl/s3_both.cc:399-425 | An encoded message is recognised as complete at its end, whatever follows |
| TlsFraming.MessageLayout | ios/Pods/BoringSSL-GRPC/ssl/s3_both.cc:184-205 | A message is its type, the length in three bytes, most significant first, and its body: section 7.4 of RFC 5246 |
| TlsFraming.CompleteAppend | ios/Pods/BoringSSL-GRPC/ssl/s3_both.cc:399-439 | More bytes never change the messages that are already complete |
| TlsFraming.AddMessage | ios/Pods/BoringSSL-GRPC/ssl/s3_both.cc:184-205 | The records are the chunks of the message: joined they are the message; all but the last are full, none is longer, and none is empty unless the message is |
| TlsFraming.HandshakeBuffer.constructor | ios/Pods/BoringSSL-GRPC/ssl/s3_both.cc:399-425 | A new buffer holds nothing |
| TlsFraming.HandshakeBuffer.Parse | ios/Pods/BoringSSL-GRPC/ssl/s3_both.cc:399-425 | Says whether a complete message is there, and how many bytes it takes |
| TlsFraming.HandshakeBuffer.CanAcceptHandshakeData | ios/Pods/BoringSSL-GRPC/ssl/s3_both.cc:441-459 | More data is taken exactly when no complete message waits and the one coming is within the limit |
| TlsFraming.HandshakeBuffer.AppendRecord | ios/Pods/BoringSSL-GRPC/ssl/s3_both.cc:553-559 | The record's body follows the buffer's contents |
| TlsFraming.HandshakeBuffer.GetMessage | ios/Pods/BoringSSL-GRPC/ssl/s3_both.cc:427-439 | The first complete message, if there is one |
| TlsFraming.HandshakeBuffer.NextMessage | ios/Pods/BoringSSL-GRPC/ssl/s3_both.cc:562-583 | Exactly the first message leaves; the later ones and the incomplete end stay |
| TlsFraming.HandshakeBuffer.HasUnprocessedHandshakeData | ios/Pods/BoringSSL-GRPC/ssl/s3_both.cc:461-472 | True exactly when there are bytes beyond the message being read |
| TlsFraming.BoundariesDoNotMatter | ios/Pods/BoringSSL-GRPC/ssl/s3_both.cc:399-583 | Wherever records are cut and whenever messages are taken out, what was handed over and what is still there are the messages of the byte stream |
| TlsFraming.FramingRoundTrip | ios/Pods/BoringSSL-GRPC/ssl/s3_both.cc:184-205 | When the records carry exactly these messages, what was handed over and what still waits are these, in order; a reader that has read what there is has been handed exactly these, with nothing left |
| TlsFraming.SentIsReceived | ios/Pods/BoringSSL-GRPC/ssl/s3_both.cc:184-205 | For any messages, each cut for any positive fragment limit: once exactly these records have been received and what there is was read, exactly these messages were handed over, in order, with nothing left |
| TlsFraming.LimitIsEnough | ios/Pods/BoringSSL-GRPC/ssl/s3_both.cc:441-459 | The size limit never stops a peer whose messages respect it, wherever its stream is cut |
| CipherChoice.IndexOf | ios/Pods/BoringSSL-GRPC/ssl/handshake_server.cc:400-401 | The first place of the cipher in the list, or none exactly if it is not there |
| CipherChoice.ChooseCipher | ios/Pods/BoringSSL-GRPC/ssl/handshake_server.cc:357-424 | The acceptable cipher that comes first in the other side's list within the first group that has one; it is in both lists, the version has it, and both masks allow it; none exactly when no acceptable cipher is in a group that ends, so some cipher is chosen whenever one is shared and the last flag is 0 |
| CipherChoice.UnendedGroup | ios/Pods/BoringSSL-GRPC/ssl/handshake_server.cc:408-423 | The only cipher, acceptable to both sides, is not chosen when its group does not end |
| CipherChoice.GroupsAreClosed | ios/Pods/BoringSSL-GRPC/ssl/handshake_server.cc:416-420 | With the last flag 0 every group ends, so none is returned exactly when nothing is acceptable |
| CipherChoice.BestIsUnique | ios/Pods/BoringSSL-GRPC/ssl/handshake_server.cc:377-423 | The choice is determined by the lists |
| CipherChoice.WithoutGroups | ios/Pods/BoringSSL-GRPC/ssl/handshake_server.cc:377-423 | Without groups the best is the first acceptable cipher of the list with preference |
| CipherChoice.OneGroup | ios/Pods/BoringSSL-GRPC/ssl/handshake_server.cc:377-423 | Within one group it is the acceptable cipher that comes first in the other side's list |
| CipherChoice.EndsHere | ios/Pods/BoringSSL-GRPC/ssl/handshake_server.cc:408-420 | At the end of a group the best found in it is the best of all |
| TlsHandshake.CDo | ios/Pods/BoringSSL-GRPC/ssl/handshake_client.cc:1707-1789 | Every turn of the client keeps everything known of the side, comes nearer the end in the ranking of its kind of handshake on every change of state, and stays only to fail or to wait for what it lacks; its cases are the `Do` functions, one for each of the 18 do_* functions of the file, with the same contract |
| TlsHandshake.SDo | ios/Pods/BoringSSL-GRPC/ssl/handshake_server.cc:1539-1621 | Every turn of the server keeps everything known of the side, comes nearer the end in the ranking of its kind of handshake on every change of state, and stays only to fail or to wait for what it lacks; its cases are the `Do` functions, one for each of the 19 do_* functions of the file, with the same contract |
| TlsHandshake.ClientDoneIsSafe | ios/Pods/BoringSSL-GRPC/ssl/handshake_client.cc:1707-1789 | Whatever the peer sends, a client that is done switched its read keys before it checked the server's Finished and its write keys before it sent its own; in a full handshake with a certificate cipher it had accepted the certificate before it computed the secret |
| TlsHandshake.ServerDoneIsSafe | ios/Pods/BoringSSL-GRPC/ssl/handshake_server.cc:1539-1621 | The same of the server, for a client certificate that came |
| TlsVerdicts.ClientWasTold | ios/Pods/BoringSSL-GRPC/ssl/handshake_client.cc:871-889 | Whatever the server sends, a client that is done with a full handshake and a certificate cipher, or has a master secret in it, took an earlier turn on the certificate in which the answer was that it is good |
| TlsVerdicts.ServerWasTold | ios/Pods/BoringSSL-GRPC/ssl/handshake_server.cc:1042-1056 | The same of a server for a client certificate that came |
| TlsVerdicts.BadCertificateFails | ios/Pods/BoringSSL-GRPC/ssl/handshake_client.cc:871-889 | A server certificate found bad ends the handshake at once, and nothing that follows changes the client any more |
| TlsVerdicts.ServerBadCertificateFails | ios/Pods/BoringSSL-GRPC/ssl/handshake_server.cc:1042-1056 | The same of the server for a client certificate |
| TlsVerdicts.ClientFailsForGood | ios/Pods/BoringSSL-GRPC/ssl/handshake.cc:496-498 | A client that failed stays as it is, whatever moves follow |
| TlsVerdicts.ServerFailsForGood | ios/Pods/BoringSSL-GRPC/ssl/handshake.cc:496-498 | The same of the server |
| TlsVerdicts.ClientTakesGood | ios/Pods/BoringSSL-GRPC/ssl/handshake_client.cc:535-1672 | In every run against any peer, a message leaves the buffer one at a time, into the transcript, and only in a turn that found it well formed; a Finished is known by its MAC instead |
| TlsVerdicts.ServerTakesGood | ios/Pods/BoringSSL-GRPC/ssl/handshake_server.cc:432-1461 | The same of the server |
| TlsVerdicts.ClientWaitsWhy | ios/Pods/BoringSSL-GRPC/ssl/handshake_client.cc:1169-1536 | The client waits for a callback or key exactly in the states that need one and when it is not ready, and is then unchanged |
| TlsVerdicts.ClientReturnsWhy | ios/Pods/BoringSSL-GRPC/ssl/handshake_client.cc:871-1564 | It comes back to a certificate exactly while it is undecided, and returns early exactly for False Start in a full handshake |
| TlsVerdicts.ServerWaitsWhy | ios/Pods/BoringSSL-GRPC/ssl/handshake_server.cc:432-1267 | The server waits for a callback or key exactly where one is needed, with the message concerned there and good, and is then unchanged |
| TlsVerdicts.ServerReturnsWhy | ios/Pods/BoringSSL-GRPC/ssl/handshake_server.cc:1042-1056 | It comes back to a client certificate exactly while it is undecided, and never returns early |
| TlsDriver.ClientHandshake.constructor | ios/Pods/BoringSSL-GRPC/ssl/handshake_client.cc:1707-1789 | A new handshake is at the start: nothing happened and no answer was asked for |
| TlsDriver.ClientHandshake.Handshake | ios/Pods/BoringSSL-GRPC/ssl/handshake_client.cc:1707-1789 | The loop takes turns, each of a machine that is ready and each on the next answer of the outside, until the machine waits or is done, and at most as many as there are ranks; the state stays that of a run on these answers |
| TlsDriver.ClientHandshake.Await | ios/Pods/BoringSSL-GRPC/ssl/handshake.cc:491-628 | A wait is resolved exactly by what was waited for: a flush that is taken, the next record if it is of the kind, an answer at the next call; the record is used up either way, and without a resolution the caller must come back |
| TlsDriver.ClientHandshake.Run | ios/Pods/BoringSSL-GRPC/ssl/handshake.cc:491-628 | The driver ends, and what it opened and left of the records is what there was; it returns success only done or early, and fails only for an error of the machine, a refused flush, records used up or of the wrong kind, or a pause |
| TlsDriver.ServerHandshake.constructor | ios/Pods/BoringSSL-GRPC/ssl/handshake_server.cc:1539-1621 | A new handshake is at the start: nothing happened and no answer was asked for |
| TlsDriver.ServerHandshake.Handshake | ios/Pods/BoringSSL-GRPC/ssl/handshake_server.cc:1539-1621 | As on the client |
| TlsDriver.ServerHandshake.Await | ios/Pods/BoringSSL-GRPC/ssl/handshake.cc:491-628 | As on the client |
| TlsDriver.ServerHandshake.Run | ios/Pods/BoringSSL-GRPC/ssl/handshake.cc:491-628 | As on the client |
| TlsDriver.ClientHandshake.Step | ios/Pods/BoringSSL-GRPC/ssl/handshake_client.cc:1707-1789 | One turn of the loop takes the next answer of the outside and no other |
| TlsDriver.ServerHandshake.Step | ios/Pods/BoringSSL-GRPC/ssl/handshake_server.cc:1539-1621 | As on the client |
| TlsDriver.ClientHandshake.FlushFlight | ios/Pods/BoringSSL-GRPC/ssl/handshake.cc:500-506 | One flush is asked for; the wait is over exactly if the transport took the flight |
| TlsDriver.ClientHandshake.Open | ios/Pods/BoringSSL-GRPC/ssl/handshake.cc:508-546 | The next record is used up whatever it is, and resolves the wait exactly if it is of the kind waited for |
| TlsDriver.ClientHandshake.Pause | ios/Pods/BoringSSL-GRPC/ssl/handshake.cc:558-607 | A pause is over when the caller comes back, and nothing else changed |
| TlsDriver.ResolvedRecords | ios/Pods/BoringSSL-GRPC/ssl/handshake.cc:508-546 | Resolving a wait loses and invents no record: it is opened, left, or the one that does not suit |
| TlsOrder.ExpectHashes | ios/Pods/BoringSSL-GRPC/ssl/handshake.cc:165-174 | Reading a message of one kind goes on only having hashed exactly a message of that kind; otherwise nothing changes |
| TlsOrder.FinishedHashes | ios/Pods/BoringSSL-GRPC/ssl/handshake.cc:380-429 | Reading a Finished goes on only having hashed exactly a Finished; otherwise nothing changes |
| TlsOrder.ClientHashesInOrder | ios/Pods/BoringSSL-GRPC/ssl/handshake_client.cc:1707-1789 | Whatever the server sends, the client has hashed kind by kind what an honest handshake has up to its state, for some choice of the server's optional messages; a CertificateStatus only if negotiated, a ServerKeyExchange always where the cipher needs it |
| TlsOrder.ServerHashesInOrder | ios/Pods/BoringSSL-GRPC/ssl/handshake_server.cc:1539-1621 | Whatever the client sends, the server has hashed kind by kind what an honest handshake has up to its state, for a client with or without a certificate, and with one where it is required |
| TlsOrder.ClientOptionHashes | ios/Pods/BoringSSL-GRPC/ssl/handshake_client.cc:821-1143 | Each optional message of the server is hashed at its own place or not at all |
| TlsOrder.ClientReadHashes | ios/Pods/BoringSSL-GRPC/ssl/handshake_client.cc:535-1672 | Each state of the client that reads goes on only to its successor and only having hashed exactly the one message it expects, or none where none is due; otherwise nothing changes |
| TlsOrder.ClientSendHashes | ios/Pods/BoringSSL-GRPC/ssl/handshake_client.cc:385-1455 | Each state of the client that sends hashes exactly its message, and the optional ones exactly when asked for |
| TlsOrder.ClientFlightHashes | ios/Pods/BoringSSL-GRPC/ssl/handshake_client.cc:1457-1512 | The last flight hashes the optional messages and the Finished, in this order |
| TlsOrder.ServerReadHashes | ios/Pods/BoringSSL-GRPC/ssl/handshake_server.cc:572-1461 | Each state of the server that reads goes on only to its successor and only having hashed exactly the one message it expects; a required client certificate is there |
| TlsOrder.ServerSendHashes | ios/Pods/BoringSSL-GRPC/ssl/handshake_server.cc:686-1509 | Each state of the server that sends hashes exactly its messages in order, and goes on to its successor |
| TlsOrder.ChecksGenuine | ios/Pods/BoringSSL-GRPC/ssl/handshake.cc:380-429 | A Finished is accepted only with the MAC over everything hashed before it |
| TlsOrder.ClientRunGenuine | ios/Pods/BoringSSL-GRPC/ssl/handshake_client.cc:1707-1789 | In every run against any peer, the Finished the client sent and the one it accepted carry the MAC over the transcript before them |
| TlsOrder.ServerRunGenuine | ios/Pods/BoringSSL-GRPC/ssl/handshake_server.cc:1539-1621 | The same of the server |
| TlsOrder.ClientDoneInOrder | ios/Pods/BoringSSL-GRPC/ssl/handshake_client.cc:1707-1789 | A client that is done hashed, kind by kind, exactly an honest handshake with some choice of the server's optional messages, and accepted a Finished with the right MAC over what came before it |
| TlsOrder.ServerDoneInOrder | ios/Pods/BoringSSL-GRPC/ssl/handshake_server.cc:1539-1621 | The same of a server that is done, with a client certificate where one is required |
| TlsOrder.LeftoverNeverPasses | ios/Pods/BoringSSL-GRPC/ssl/tls_method.cc:84-95 | A client that awaits the ChangeCipherSpec with a further message or the start of one in its buffer never gets past it, whatever follows, and fails when the ChangeCipherSpec comes |
| TlsOrder.ServerLeftoverNeverPasses | ios/Pods/BoringSSL-GRPC/ssl/tls_method.cc:84-95 | The same of the server |
| TlsOrder.CoalescedTicketFails | ios/Pods/BoringSSL-GRPC/ssl/handshake_client.cc:1566-1656 | A NewSessionTicket packed together with any further message, such as a Finished, or the start of one, ends in that failure |
| TlsOrder.LaterChoices | ios/Pods/BoringSSL-GRPC/ssl/handshake_client.cc:821-1143 | Choices the server has yet to make do not affect what was hashed before |
| TlsAgreement.HeadIs | ios/Pods/BoringSSL-GRPC/ssl/s3_both.cc:427-439 | On a FIFO channel the next thing to arrive is what the sender's next slot of the script carries |
| TlsAgreement.CReadCertificateStatus | ios/Pods/BoringSSL-GRPC/ssl/handshake_client.cc:821-869 | On an honest connection the client passes over or takes in the status exactly as the server sent it |
| TlsAgreement.CReadServerKeyExchange | ios/Pods/BoringSSL-GRPC/ssl/handshake_client.cc:891-1071 | The same for the key exchange: never an unexpected message |
| TlsAgreement.CReadCertificateRequest | ios/Pods/BoringSSL-GRPC/ssl/handshake_client.cc:1073-1143 | The same for the certificate request |
| TlsAgreement.ClientFlight | ios/Pods/BoringSSL-GRPC/ssl/handshake_client.cc:1457-1512 | ChangeCipherSpec, the optional messages and Finished are the next four slots of the script, and the Finished is over the transcript up to it |
| TlsAgreement.ServerFlight | ios/Pods/BoringSSL-GRPC/ssl/handshake_server.cc:1463-1509 | The same of the server's last flight |
| TlsAgreement.ClientTurn | ios/Pods/BoringSSL-GRPC/ssl/handshake_client.cc:1707-1789 | Every turn of the client on an honest connection stays on the script: its transcript, what it took in and what it sends are those of its place in it |
| TlsAgreement.ServerTurn | ios/Pods/BoringSSL-GRPC/ssl/handshake_server.cc:1539-1621 | The same of the server |
| TlsAgreement.NoMessageAtCcs | ios/Pods/BoringSSL-GRPC/ssl/handshake_client.cc:1649-1656 | No message can be in the buffer where the ChangeCipherSpec is due, so switching keys never fails |
| TlsAgreement.SomeoneCanAct | ios/Pods/BoringSSL-GRPC/ssl/handshake.cc:491-628 | There is no deadlock: as long as a side is not done, one of them can act |
| TlsAgreement.ActComesNearer | ios/Pods/BoringSSL-GRPC/ssl/handshake.cc:491-628 | Every act of either side lowers one measure of the whole |
| TlsAgreement.RunIsSound | ios/Pods/BoringSSL-GRPC/ssl/handshake.cc:491-628 | Every reachable state of the two machines and their channels is on the script, and the acts so far and the measure left never exceed the measure at the start |
| TlsAgreement.NoRunFails | ios/Pods/BoringSSL-GRPC/ssl/handshake_client.cc:1707-1789 | However both sides are scheduled neither ever fails, and at every moment the master secrets, and each Finished sent and checked, are over the same transcript on both sides |
| TlsAgreement.EveryRunAgrees | ios/Pods/BoringSSL-GRPC/ssl/handshake_server.cc:1539-1621 | No schedule holds more than 1200 acts, and a run that has ended has both sides done with the same transcript, everything delivered, and all secrets and Finished messages computed |
| TlsPauses.ClientPauses | ios/Pods/BoringSSL-GRPC/ssl/handshake_client.cc:1169-1536 | Whatever the outside decides, short of refusing, a turn of the client is the turn it would have taken at once, or leaves it as it was but waiting |
| TlsPauses.ServerPauses | ios/Pods/BoringSSL-GRPC/ssl/handshake_server.cc:432-1267 | The same of the server |
| TlsPauses.PausesDoNotMatter | ios/Pods/BoringSSL-GRPC/ssl/handshake.cc:491-628 | A run in which callbacks, keys, lookups and verification ask for more time is an honest run without pauses, with the pauses and the acts that end them in between |
| TlsPauses.NoPausingRunFails | ios/Pods/BoringSSL-GRPC/ssl/handshake.cc:491-628 | However both sides are scheduled and whenever they pause neither ever fails, and what both have computed agrees at every moment |
| TlsPauses.EveryPausingRunAgrees | ios/Pods/BoringSSL-GRPC/ssl/handshake.cc:491-628 | No schedule holds more than 1200 acts and two for each pause, and a run that has ended has both sides done and agreed as without pauses |

## Left out

- Cryptography and X.509: ciphers are functions with `open(seal(x)) = x` and a length bound; MACs, signatures, key exchange and message bodies are parameters.
- TLS 1.3, SSL 3.0, renegotiation, V2ClientHello, extension parsing, session tickets' contents, `handoff.cc`: files of their own or case bulk.
- Alerts, timers, message and info callbacks, locks and memory release: an alert record is reported as `AlertReceived`, and allocation failure is modelled only in `SslBuffer` and its callers.
- BIOs: what a write or flush answers is a parameter, call by call (`Outside`, and `bio` for datagrams, which are taken whole); a write takes a prefix or fails.
- nanopb callbacks, extensions, fixed-count arrays, and the delimited and null-terminated entry points; pointer fields too, although the build enables them (`PB_ENABLE_MALLOC`).
- nanopb sizes: `pb_size_t` has the 32 bits that the build sets (`PB_FIELD_32BIT`, nanopb.release.xcconfig:2 and nanopb.debug.xcconfig:2); a build with 8 or 16 bits is not modelled, and descriptors are otherwise unbounded.
- nanopb destinations: decoding returns the new contents instead of writing through pointers, so what a failed decode leaves behind, the overlay of union members in memory, and the size_t overflow checks are not captured. A counting stream is unbounded.
- PbDecode.IStream.DecodeVarint32: does not model the 8-bit wrap of `bitpos`, which needs a varint of more than 37 bytes; on encoder output it never occurs.
- PbVarint.Varint32OfVarint: is about encoder output; on other byte strings the 32-bit decoder's accept set is `Varint32` itself.
- PbDecode.DecodeNoinit: extensions and fixed-count arrays are left out.
- PbRoundTrip.RoundTrip: is limited to encodings below 4 GB, the range of the decoder's 32-bit length prefixes.
- DtlsRecord.RecordNumbersUnique: for the "only if" half no sealed text is 65536 bytes or longer, which uses up a number without sending it; the "if" half, `FreshCountersGiveDistinctNumbers`, has no such condition. Both are about connections with fewer than 65536 cipher changes.
- DtlsRecord.RecordReader.OpenRecord: an alert is handed up as it is; what ssl_process_alert (tls_record.cc:551) makes of it is left out.
- DtlsRecord.RecordWriter.SealRecord: leaves out the check that input and output buffers do not overlap.
- ReplayWindow.Bitmap.Record: models the 64-bit word as a sequence of bits, and so do the required-field words of `PbIter.RequiredBits`.
- DtlsSender.FlightWriter.SendFlight: the packet buffer's allocation failure is not modelled.
- DtlsSender.FlightWriter.Retransmit: what earlier attempts sent is forgotten by `accepted`, which starts again with the flight.
- DtlsFlight.LostIffStops: is about ciphers that seal whatever can be written (`CiphersLast`); for one that refuses a text, which nobody can see before, the loss is in `SendEnds` and `DatagramFacts`.
- DtlsTransport.FlightGetsThrough: is about a flight that arrives in the window of its time without the size limit or the epoch-1 rule refusing a fragment (`Welcome`); safety (`EndToEnd`) has no such condition.
- TlsWrite.TlsWriter.AddRecordToFlight: what the n-th record sealed looks like is the parameter `Outside.seal`; record splitting inside the seal is part of it.
- TlsFraming.HandshakeBuffer.AppendRecord: the record layer below it and the checks of the record's type are not repeated here.
- TlsHandshake.CDo: the `Do` functions are steps on a value, driven by the loops of `ClientHandshake` and `ServerHandshake`; the negotiated bits, resumption included, are fixed in `Params` from the start, and whether a body parses, a signature verifies, or a callback, private key or session lookup makes the handshake wait is the outside's choice (`Env`). DTLS's HelloVerifyRequest and early data are left out.
- TlsHandshake.SDo: as for the client; `handoff.cc` is left out.
- TlsDriver.ClientHandshake.Run: which return value a failed read or flush gives is not distinguished.
- PbRequired.MissingIsRefused: like the round trip, is about encodings below 4 GB.
- TlsAgreement.EveryRunAgrees: is about sides that negotiated the same bits and find each other's messages well formed; certificate verification, callbacks and lookups answer at once, which `TlsPauses` does without, and False Start may happen.
- TlsOrder.ClientHashesInOrder: asks that a certificate status is only expected of a cipher with certificates, which the extension's parser enforces (t1_lib.cc:1055-1059).
- CipherChoice.ChooseCipher: building the client's list and the masks is left out.
- Easy members: `dtls_max_seal_overhead`, `dtls1_min_mtu`, error strings, CPU detection, and the Flutter, Gradle and Swift parts of the application.

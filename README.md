# aranya-embedded, modelled in Dafny

This project models the core of the aranya-embedded firmware. The firmware runs an Aranya
command graph on ESP32 boards. The model covers:

- **Storage of the graph.**
  - The linear-storage backends: internal flash (two generations), an SD-card linear store and an SD-card graph store.
  - The flash medium and FAT file they write to.
  - The `storage-dump.py` script and the Rust storage dumper that read a flash image back.
- **Synchronisation.**
  - The three syncers: chat-app, demo and the original `src/aranya/syncer.rs`.
  - Their shared queue and session bookkeeping.
  - The TCP message prefix.
  - The ESP-NOW packet network: frames with a CRC-16 check, fountain-coded messages and their reconstruction.
- **Devices and applications.**
  - The parameter store: one 1024-byte block protected by a CRC-32.
  - The `aranya-embedded-config` command line tool.
  - The chat application and its serial console.
  - The ESP32 clock.
  - The RMT NeoPixel pulse encoder and the board NeoPixel driver.
- **Small utilities.**
  - The slice cursor and the span subscriber.
  - The effect sinks.
  - The envelope FFI.

Each source file keeps its own form. Code that mutates an object is a Dafny `class` with `modifies` clauses, and its
methods are proved against specification functions of the old state. Pure code is datatypes, functions and lemmas.

Some things the firmware does are given to the model from outside:

- Collaborators whose code is not part of the model are parameters or recorded answers: the Aranya sync engine,
  client and policy, RaptorQ, SHA-256 and SipHash.
- Every fault a flash or file write may suffer is an explicit `Fault` input.
- Time, randomness, radio reception and console input are inputs to the methods that use them.

Serialisation formats are modelled byte-exactly where the code fixes them:

- postcard varints, options, byte arrays and vectors;
- the rkyv archived headers of the flash stores;
- big- and little-endian integers;
- CRC-16/XMODEM and CRC-32/CKSUM, whose catalogue check values are proved.

The serialised form of a command-graph segment itself is treated as opaque bytes wherever the code only stores it.

## Model

| member | source | states |
|---|---|---|
| Util.SliceCursor.constructor | src/util.rs:21-23 | a new cursor is at position 0 with the whole slice remaining (same code in crates/demo-esp32-s3/src/util.rs:156-158) |
| Util.SliceCursor.Remaining | src/util.rs:26-28 | position plus remaining is the slice length; remaining is the length of the unread rest (also crates/demo-esp32-s3/src/util.rs:161-163) |
| Util.SliceCursor.Next | src/util.rs:31-36 | requires the `n` bytes to be there (the source asserts it); returns exactly the next `n` bytes, the old rest is those bytes followed by the new rest, and the cursor moves by `n` (also crates/demo-esp32-s3/src/util.rs:166-171) |
| Util.SliceCursor.NextU8 | src/util.rs:39-41 | returns the byte at the old position and advances by one (also crates/demo-esp32-s3/src/util.rs:174-176) |
| Util.SliceCursor.NextU16Be | src/util.rs:44-46 | returns the next two bytes read big-endian (`hi * 256 + lo`) and advances by two (also crates/demo-esp32-s3/src/util.rs:179-181) |
| Util.SimpleSubscriber.constructor | crates/demo-esp32-s3/src/util.rs:53-59 | the span stack starts empty |
| Util.SimpleSubscriber.Enter | crates/demo-esp32-s3/src/util.rs:119-122 | pushes the span id on top of the stack |
| Util.SimpleSubscriber.Exit | crates/demo-esp32-s3/src/util.rs:124-133 | pops the top; it reports a match, a mismatch that carries the popped id, or an empty stack (which stays empty); the popped id is never restored |
| Util.EnterExit | crates/demo-esp32-s3/src/util.rs:119-133 | entering a span and then exiting it restores the stack exactly and reports a match |
| VecSink.CollectAll | src/aranya/sink.rs:20-26 | `collect` succeeds exactly when every effect converts, and then yields the converted effects in order (same in crates/chat-app/src/aranya/sink.rs:23) |
| VecSink.CollectFailsFirst | src/aranya/sink.rs:20-26 | a failed `collect` returns the error of the first effect that fails to convert |
| VecSink.CollectAppend | src/aranya/sink.rs:20-33 | consuming one more convertible effect appends its conversion to what `collect` yields |
| VecSink.VecSink.constructor | src/aranya/sink.rs:13 | a new sink holds no effects (also crates/demo-esp32-s3/src/aranya/sink.rs:14 and crates/chat-app/src/aranya/sink.rs:16) |
| VecSink.VecSink.Begin | src/aranya/sink.rs:29 | `begin` leaves the effects unchanged (also crates/chat-app/src/aranya/sink.rs:32) |
| VecSink.VecSink.Consume | src/aranya/sink.rs:31-33 | the effect is appended at the end (also crates/demo-esp32-s3/src/aranya/sink.rs:32-34 and crates/chat-app/src/aranya/sink.rs:34-36) |
| VecSink.VecSink.Rollback | src/aranya/sink.rs:35 | `rollback` discards nothing: the effects are unchanged (also crates/chat-app/src/aranya/sink.rs:38) |
| VecSink.VecSink.Commit | src/aranya/sink.rs:37 | `commit` leaves the effects unchanged (also crates/chat-app/src/aranya/sink.rs:40) |
| Envelope.Seal | crates/envelope-ffi/src/lib.rs:36-66 | panics exactly on a non-seal context; otherwise the envelope has the head as parent, the user as author, the SHA-256 of parent, author and payload as command id, and the fixed "LOL" signature |
| Envelope.Open | crates/envelope-ffi/src/lib.rs:69-76 | `open` never fails and returns the stored payload |
| Envelope.OpenSeal | crates/envelope-ffi/src/lib.rs:36-76 | round trip: opening a sealed envelope gives the payload back |
| Envelope.CommandIdBinds | crates/envelope-ffi/src/lib.rs:49-56 | two sealed envelopes with the same command id have the same parent, author and payload, unless their hashed inputs are a SHA-256 collision |
| Envelope.HashInputUnambiguous | crates/envelope-ffi/src/lib.rs:49-56 | parent and author have a fixed length, so the hashed input determines parent, author and payload |
| TcpFormat.SubjectCode | src/tcp/format.rs:7-11 | every subject code fits in the low seven bits |
| TcpFormat.CommandByte | src/tcp/format.rs:16-28 | the top bit of the command byte is set exactly for a `Set` command; the low seven bits are the subject code |
| TcpFormat.WritePrefix | src/tcp/format.rs:16-28 | writes the big-endian length and the command byte into bytes 0..3, leaves the rest of the buffer as it was, and returns the prefix length 3 |
| TcpFormat.ReadPrefix | src/tcp/format.rs:31-56 | None for a buffer shorter than three bytes or with an unknown subject; otherwise the big-endian length and a command whose kind is the top bit |
| TcpFormat.PrefixRoundTrip | src/tcp/format.rs:16-56 | round trip: a written prefix reads back as its command and length, whatever follows it |
| TcpFormat.PrefixUnique | src/tcp/format.rs:31-56 | every prefix that reads is the encoding of what it reads as |
| EspNow.RandomDelay | crates/chat-app/src/net/espnow.rs:183-186 | the pause after a send is 25 plus the frame CRC modulo 100, so it lies in 25..124 ms |
| EspNow.SenderDelay | crates/chat-app/src/net/espnow.rs:302-320 | a failed send pauses the fixed 50 ms retry delay; every pause is between 25 and 124 ms |
| EspNow.Header | crates/chat-app/src/net/espnow.rs:189-221 | the header after the magic is nine bytes long |
| EspNow.SendPacket | crates/chat-app/src/net/espnow.rs:189-221 | the frame sent is the frame of the packet with this node as sender, at most PACKET_SIZE bytes, starting with the magic; the result is the CRC-16 of everything between magic and checksum, or an error when the radio fails |
| EspNow.FrameLayout | crates/chat-app/src/net/espnow.rs:197-211 | byte-exact frame layout: magic, big-endian recipient, sender, sequence byte, chunk length, total length, contents, and a big-endian CRC-16/XMODEM of bytes 3 up to the checksum |
| EspNow.ReceiveOne | crates/chat-app/src/net/espnow.rs:229-290 | the outcome for one buffer is the classification `recv_packet` makes, in the order the source checks: magic, recipient, chunk length, checksum; a slice past the end is a panic |
| EspNow.RecvPacket | crates/chat-app/src/net/espnow.rs:229-290 | buffers are skipped until one is accepted or panics; every buffer before the one that ends the loop was skipped; the packet returned is that buffer's classification |
| EspNow.Classify | crates/chat-app/src/net/espnow.rs:229-290 | what `recv_packet` does with one buffer, in the order the checks are made; stated by ReceiveOne, RecvPacket, FrameRoundTrip, AcceptedIsFrame and BadMagicSkipped |
| EspNow.FrameFields | crates/chat-app/src/net/espnow.rs:197-211 | each header field, the contents and the checksum read back from a frame are the values the frame was built from, whatever trails it |
| EspNow.FrameRoundTrip | crates/chat-app/src/net/espnow.rs:189-290 | round trip: a frame sent to this node or to broadcast is accepted as its packet, whatever trails it |
| EspNow.AcceptedFields | crates/chat-app/src/net/espnow.rs:229-290 | an accepted buffer carries the magic, a recipient that is this node or broadcast, a chunk length of at most 68 and a CRC that matches its header and contents, and the packet holds exactly those fields |
| EspNow.AcceptedIsFrame | crates/chat-app/src/net/espnow.rs:229-290 | converse: an accepted buffer starts with a well-formed frame of a packet for this node or for broadcast; the packet records this node as recipient and its chunk length equals its content length, at most 68 |
| EspNow.BadMagicSkipped | crates/chat-app/src/net/espnow.rs:236-239 | any buffer of three or more bytes without the magic is skipped as bad magic |
| EspNow.Reconstructor.constructor | crates/chat-app/src/net/espnow.rs:114-125 | a new reconstructor is in the state `Fresh` gives: the first packet's sequence number and total length, nothing fed, not finished |
| EspNow.AddStep | crates/chat-app/src/net/espnow.rs:129-149 | the state keeps the packet's sequence number and length; another sequence number or length restarts with this packet alone, counted once; a packet of an unfinished message is appended and counted; one of a finished message changes nothing and returns nothing; a returned message means the state is finished, the packet was the last one fed, and the message is the decoder's output on everything fed |
| EspNow.Reconstructor.AddPacket | crates/chat-app/src/net/espnow.rs:129-149 | the reconstructor's new state and the result are exactly `AddStep` of its old state and the packet |
| EspNow.FinishedLatches | crates/chat-app/src/net/espnow.rs:129-149 | once finished, further packets of the same message return nothing and change no count |
| EspNow.MessagePackets | crates/chat-app/src/net/espnow.rs:367-376 | one packet per encoded piece, in order, each carrying the recipient, this node, the sequence number, the total length modulo 2^16 and the piece's own length |
| EspNow.RepairPackets | crates/chat-app/src/net/espnow.rs:366 | the repair count is 20% of the number of full chunks, rounded down, and below a quarter more than the chunk count |
| EspNow.Interface.constructor | crates/chat-app/src/net/espnow.rs:292-300 | a new interface has sequence number 0, no reconstructors and an empty send queue |
| EspNow.Interface.Send | crates/chat-app/src/net/espnow.rs:361-382 | the sequence number is bumped once for the message, wrapping at 256; the queue gains exactly the message's packets, in encoder order |
| EspNow.DeliverStep | crates/chat-app/src/net/espnow.rs:394-403 | the sender gains a state (its old one, or `Fresh` of the packet when it had none) and no other sender's state changes; an assembled message is addressed as the packet was, comes from a finished state, and holds the decoder's output |
| EspNow.Interface.ReconstructorFor | crates/chat-app/src/net/espnow.rs:393-396 | the sender's existing reconstructor, or a fresh one built from the packet and registered under that sender only; the abstract states change only at that sender, and no other sender shares the object |
| EspNow.Interface.Deliver | crates/chat-app/src/net/espnow.rs:394-403 | the reconstructors' states and the result are exactly `DeliverStep` of the old states and the packet; the sender's reconstructor is reused or created fresh, and no other sender's reconstructor object changes |
| EspNow.RecvFold | crates/chat-app/src/net/espnow.rs:385-405 | `recv` on abstract states takes at most the packets offered, and all of them when no message is completed |
| EspNow.RecvFoldAdvance | crates/chat-app/src/net/espnow.rs:386-404 | one more loop iteration: the fold either stops at the next packet with its message or continues from the state that packet leaves |
| EspNow.RecvFoldFound | crates/chat-app/src/net/espnow.rs:398-403 | the returned message is addressed as the last packet taken was, and is the decoder's output for that sender's finished reconstruction |
| EspNow.RecvFoldFirst | crates/chat-app/src/net/espnow.rs:386-404 | no shorter run of the packets completes a message: `recv` returns at the first packet that does |
| EspNow.RecvFoldKeys | crates/chat-app/src/net/espnow.rs:394-397 | after `recv` there are reconstructors exactly for the senders before and the senders of the packets taken |
| EspNow.Interface.Recv | crates/chat-app/src/net/espnow.rs:385-405 | the final reconstructor states, the message and the number of packets taken are exactly `RecvFold` of the old states over the packets offered; reconstructors exist exactly for the old senders plus those delivered |
| Crc.Crc16Check | crates/chat-app/src/net/espnow.rs:54 | the CRC-16/XMODEM used by frames has the catalogue check value 0x31C3 for "123456789" |
| Crc.Crc16 | crates/chat-app/src/net/espnow.rs:54 | CRC-16/XMODEM of a buffer; stated by Crc16Check |
| Crc.Update16Append | crates/chat-app/src/net/espnow.rs:242-276 | feeding a digest `a` and then `b` equals feeding it `a + b`, so the receiver's two digest updates give the sender's one-shot checksum |
| Crc.Update16 | crates/chat-app/src/net/espnow.rs:242-276 | the XMODEM register after feeding bytes; stated by Update16Append and UpdateStep16 |
| Crc.Crc32Check | crates/parameter-store/src/parameter_store.rs:53-55 | the CRC-32/CKSUM used by the parameter block has the catalogue check value 0x765E7680 for "123456789" |
| Crc.Crc32 | crates/parameter-store/src/parameter_store.rs:53-55 | CRC-32/CKSUM of a buffer; stated by Crc32Check |
| Crc.Update32Append | crates/parameter-store/src/parameter_store.rs:76-78 | feeding the CRC-32 register `a` and then `b` equals feeding it `a + b` |
| Crc.Update32 | crates/parameter-store/src/parameter_store.rs:76-78 | the CKSUM register after feeding bytes; stated by Update32Append, UpdateStep32, CksumFirst, CksumMiddle and CksumLast |
| Bytes.BE16 | src/tcp/format.rs:18-19 | two bytes, high byte first, whose big-endian value is `x` |
| Bytes.FromBE16 | src/tcp/format.rs:37 | the value of two bytes read high byte first |
| Bytes.BE16RoundTrip | src/tcp/format.rs:16-56 | reading two bytes big-endian undoes `u16::to_be_bytes` |
| Bytes.BE32RoundTrip | crates/parameter-store/src/parameter_store.rs:48-72 | reading four bytes big-endian undoes `u32::to_be_bytes` (the block's length field) |
| Bytes.LE32RoundTrip | crates/demo-esp32-s3/src/storage/internal.rs:31-35 | reading four bytes little-endian undoes `u32::to_le_bytes` (the archived rkyv integers) |
| Bytes.FromLE32RoundTrip | crates/demo-esp32-s3/storage-dump.py:57-61 | every four bytes are the little-endian encoding of the number they denote |
| Leb128.Encode | crates/demo-esp32-s3/storage-dump.py:69-80 | the shortest encoding: every byte but the last has the continuation bit, the last does not |
| Leb128.Decode | crates/demo-esp32-s3/storage-dump.py:69-80 | a successful decode consumes at least one byte and no more than it was given |
| Leb128.DecodeConsumes | crates/demo-esp32-s3/storage-dump.py:69-80 | decoding succeeds exactly when some byte lacks the continuation bit, and consumes the bytes up to and including the first such byte |
| Leb128.DecodeEncode | crates/demo-esp32-s3/storage-dump.py:69-80 | round trip: decoding an encoding gives the number and its length back, whatever follows |
| Leb128.ZigZagRoundTrip | src/aranya/linear_store/imp.rs:217 | zig-zag (postcard's form for signed integers) is undone exactly |
| Postcard.DecVarint | crates/parameter-store/src/parameter_store.rs:82 | a decoded varint never exceeds the target type's maximum and always consumes input |
| Postcard.VarintRoundTrip | crates/parameter-store/src/parameter_store.rs:42-82 | round trip of an unsigned varint, whatever follows it |
| Postcard.DecSigned | src/aranya/linear_store/imp.rs:217 | a decoded zig-zag `i64` consumes at least one byte |
| Postcard.SignedRoundTrip | src/aranya/linear_store/imp.rs:217 | round trip of a zig-zag varint for every `i64` |
| Postcard.DecRaw | crates/demo-esp32-s3/storage-dump.py:85-91 | a fixed-size array splits the input into exactly `n` bytes and the rest |
| Postcard.RawRoundTrip | crates/demo-esp32-s3/storage-dump.py:85-91 | round trip of a raw byte array |
| Postcard.DecOptRaw | crates/demo-esp32-s3/storage-dump.py:63-67 | a decoded option consumes its tag; a present value has the array's length |
| Postcard.OptRawRoundTrip | crates/demo-esp32-s3/storage-dump.py:63-67 | round trip of `Option<[u8; n]>` (tag 0 or 1, then the bytes) |
| Postcard.DecVarints | crates/demo-esp32-s3/storage-dump.py:97-102 | exactly `count` elements, each within the type's maximum |
| Postcard.DecVarintSeq | crates/parameter-store/src/lib.rs:39 | a decoded `heapless::Vec` never holds more than its capacity, and every element is within the type's maximum |
| Postcard.VarintsRoundTrip | crates/demo-esp32-s3/storage-dump.py:97-102 | round trip of a run of varints |
| Postcard.VarintSeqRoundTrip | crates/parameter-store/src/lib.rs:39 | round trip of a length-prefixed vector within capacity |
| Postcard.VarintLength | crates/parameter-store/src/parameter_store.rs:43 | a value below 128^k takes at most k bytes |
| Postcard.SmallVarints | crates/parameter-store/src/parameter_store.rs:43 | a value below 128 takes one byte and a `u16` at most three |
| Text.ParseUnsigned | crates/aranya-embedded-config/src/main.rs:49 | accepts exactly an optional `+` followed by one or more digits whose value is within the type's maximum, and returns that value |
| Text.Show | crates/aranya-embedded-config/src/main.rs:80-81 | the decimal text of `n`: non-empty, all digits, denoting `n` |
| Text.ParseShow | crates/aranya-embedded-config/src/main.rs:49 | round trip: parsing the decimal text of an in-range number gives it back |
| Text.ParseShowLeadingZero | crates/aranya-embedded-config/src/main.rs:49 | parsing also accepts a leading `+` and a leading zero |
| Text.Split | crates/aranya-embedded-config/src/main.rs:48 | `split(',')` always yields at least one piece |
| Text.SplitJoin | crates/aranya-embedded-config/src/main.rs:48 | splitting loses nothing: joining the pieces with the separator gives the text back |
| Text.SplitPiecesFree | crates/aranya-embedded-config/src/main.rs:48 | no piece contains the separator |
| Text.JoinSplit | crates/aranya-embedded-config/src/main.rs:48 | joining separator-free pieces and splitting again gives the pieces back |
| ParamStore.Serialize | crates/parameter-store/src/lib.rs:35-41 | a serialised `Parameters` takes at most 88 bytes, well inside the block |
| ParamStore.SerializeRoundTrip | crates/parameter-store/src/parameter_store.rs:42-82 | round trip: `from_bytes` of the serialised parameters gives them back, whatever trails them |
| ParamStore.SerializedSize | crates/parameter-store/src/lib.rs:35-41 | the address takes at most 3 bytes and the peer list at most 1 + 3 * 16 |
| ParamStore.Checksum | crates/parameter-store/src/parameter_store.rs:53-55 | the checksum is four bytes: the big-endian CRC-32/CKSUM of length and payload |
| ParamStore.Block | crates/parameter-store/src/parameter_store.rs:40-60 | the written block is 1024 bytes: big-endian length, payload, checksum of the first two, then zeros |
| ParamStore.FetchBlock | crates/parameter-store/src/parameter_store.rs:67-84 | a length over 1016 is `Corrupt`; otherwise a checksum mismatch is `Corrupt`, and a match decodes the payload (a decoding failure is a postcard error) |
| ParamStore.FetchStoredBlock | crates/parameter-store/src/parameter_store.rs:40-84 | round trip: the block `store` writes for a value is fetched back as that value |
| ParamStore.FetchChecksBlock | crates/parameter-store/src/parameter_store.rs:72-82 | any block that is fetched has a length within bounds, a matching checksum, and a payload that decodes to the result |
| ParamStore.ParameterStore.constructor | crates/parameter-store/src/parameter_store.rs:27-32 | the store wraps the given 1024-byte medium |
| ParamStore.ParameterStore.Fetch | crates/parameter-store/src/parameter_store.rs:67-84 | a failed read is an IO error; otherwise the result is what the block on the medium decodes to |
| ParamStore.ParameterStore.Store | crates/parameter-store/src/parameter_store.rs:40-65 | a successful write leaves the block of the serialised value on the medium, and the re-fetch returns the value; a failed write changes nothing and is an IO error |
| ParamStore.ParameterStore.Update | crates/parameter-store/src/parameter_store.rs:86-94 | a failed first fetch is returned with the medium unchanged; otherwise `f` is applied and the result is stored, with any error propagated from the step that failed |
| ConfigCli.ParseAll | crates/aranya-embedded-config/src/main.rs:46-57 | succeeds exactly when every piece parses within the maximum, and yields those values in order |
| ConfigCli.ParsePeers | crates/aranya-embedded-config/src/main.rs:46-52 | the peer list parses exactly when every comma-separated piece is a `u16` and there are at most 16, and it holds those values in order |
| ConfigCli.ParseColor | crates/aranya-embedded-config/src/main.rs:53-66 | the colour parses exactly when there are three comma-separated `u8` pieces, taken as red, green and blue |
| ConfigCli.Edits | crates/aranya-embedded-config/src/main.rs:40-66 | the options succeed exactly when every given one parses; they set the address, peers and colour they give, and `modified` is set only by the address or the peers |
| ConfigCli.Initial | crates/aranya-embedded-config/src/main.rs:33-39 | with `--create` the defaults, once they are stored and read back; otherwise what is fetched from the block |
| ConfigCli.Configure | crates/aranya-embedded-config/src/main.rs:24-85 | the outcome and the block left on the medium are those of the whole run: open, create or fetch, edit, store if modified, print |
| ConfigCli.Run | crates/aranya-embedded-config/src/main.rs:24-85 | the whole run: outcome and resulting block; stated by Configure, StoredIsFetched, StoredIffModified, UnmodifiedLeavesBlock, CreateStoresDefaultsFirst and ColorOnlyIsLost |
| ConfigCli.Load | crates/aranya-embedded-config/src/main.rs:33-39 | the loaded parameters are `Initial`'s, and only a successful `--create` write changes the medium |
| ConfigCli.ApplyEdits | crates/aranya-embedded-config/src/main.rs:42-66 | the options applied one after another give exactly `Edits` |
| ConfigCli.StoredIsFetched | crates/aranya-embedded-config/src/main.rs:68-70 | what a run reports as stored is what a later fetch of the medium returns |
| ConfigCli.StoredIffModified | crates/aranya-embedded-config/src/main.rs:68-83 | a completed run stores exactly when an address or a peer list was given, and prints exactly when it did not store or `--verbose` was given |
| ConfigCli.UnmodifiedLeavesBlock | crates/aranya-embedded-config/src/main.rs:68-70 | without `--create`, an address or peers, the medium is left exactly as it was |
| ConfigCli.CreateStoresDefaultsFirst | crates/aranya-embedded-config/src/main.rs:33-36 | with `--create` and no stored edit, the medium holds the defaults afterwards |
| ConfigCli.PeersText | crates/aranya-embedded-config/src/main.rs:81 | the peer text splits into the decimal texts of the peers |
| ConfigCli.PeersRoundTrip | crates/aranya-embedded-config/src/main.rs:46-52 | any non-empty peer list written in decimal with commas parses back as itself |
| ConfigCli.EmptyPeersPanics | crates/aranya-embedded-config/src/main.rs:46-52 | an empty `--ir-peers` is one empty piece, which does not parse, so the peer list cannot be cleared |
| ConfigCli.ColorRoundTrip | crates/aranya-embedded-config/src/main.rs:53-66 | any colour written as `r,g,b` in decimal parses back as itself |
| ConfigCli.ColorOnlyIsLost | crates/aranya-embedded-config/src/main.rs:53-70 | as written: a run that gives only `--color` completes but leaves the medium unchanged, so the new colour is lost |
| ConfigCli.EditsCorrected | crates/aranya-embedded-config/src/main.rs:53-70 | the corrected edits fail exactly when the written ones do and produce the same parameters |
| ConfigCli.CorrectedStoresEveryEdit | crates/aranya-embedded-config/src/main.rs:40-70 | with the correction a run stores exactly when some option was given, and an unmarked run leaves the parameters unchanged |
| Flash.Read | crates/demo-esp32-s3/src/storage/internal.rs:71-74 | a read into a buffer of `n` bytes yields exactly `n` bytes |
| Flash.WriteAt | crates/demo-esp32-s3/src/storage/internal.rs:100-102 | a write sets every address in its range to the written byte and keeps every other address |
| Flash.ReadAt | crates/demo-esp32-s3/src/storage/internal.rs:71-74 | byte `i` of a read is the byte at `offset + i` |
| Flash.ReadWritten | crates/demo-esp32-s3/src/storage/internal.rs:87-105 | reading back the range just written gives the written bytes |
| Flash.ReadWrittenPart | crates/demo-esp32-s3/src/storage/internal.rs:87-105 | reading back any part of the range just written gives that part |
| Flash.ReadOutside | crates/demo-esp32-s3/src/storage/internal.rs:329-333 | a write leaves every range it does not overlap as it was |
| Flash.ReadSlice | crates/demo-esp32-s3/src/storage/internal.rs:179-212 | part of a read is the read of that part |
| Flash.ReadSplit | crates/demo-esp32-s3/src/storage/internal.rs:179-212 | a read splits into two consecutive reads (the record header, then the data) |
| Flash.Written | crates/demo-esp32-s3/src/storage/internal.rs:100-102 | a fault-free write writes the data; a failed write changes nothing; a write that lands other bytes writes those |
| Flash.Medium.constructor | crates/demo-esp32-s3/src/storage/internal.rs:377-381 | the medium holds the given contents |
| Flash.Medium.Write | crates/demo-esp32-s3/src/storage/internal.rs:100-102 | reports success exactly when the write does not fail, and leaves the contents `Written` describes |
| SdFile.Put | src/aranya/graph_store.rs:147-149 | a positional write: the file grows to cover the range, the range holds the data and every other byte is kept |
| SdFile.PutAdjacent | src/aranya/linear_store/imp.rs:320-331 | two adjacent writes are one write of both (the length and then the bytes of `dump`) |
| SdFile.PutCommute | src/aranya/linear_store/imp.rs:156-168 | writes to disjoint ranges commute |
| SdFile.PutThenSlice | src/aranya/linear_store/imp.rs:333-343 | reading a part of a range just written gives that part of the data |
| SdFile.PutOutside | src/aranya/linear_store/imp.rs:333-343 | bytes outside a write keep their value |
| SdFile.File.constructor | src/aranya/graph_store.rs:489-501 | a file opened with the given contents has its cursor at 0 |
| SdFile.File.Length | src/aranya/graph_store.rs:127-130 | `file_length` is the length of the contents |
| SdFile.File.Read | src/aranya/graph_store.rs:163-168 | a read of `n` bytes returns the next `min(n, remaining)` bytes from the cursor and moves the cursor past them; the contents are unchanged |
| SdFile.File.Write | src/aranya/graph_store.rs:147-149 | a write puts the bytes at the cursor and moves the cursor past them |
| SdFile.File.Rewind | src/aranya/graph_store.rs:202-211 | `file_seek_from_start(0)` moves the cursor to 0 and changes no byte |
| FlashStore.Zeros | crates/demo-esp32-s3/src/storage/internal.rs:125 | `n` zero bytes |
| FlashStore.DecodeTag | crates/demo-esp32-s3/src/storage/internal.rs:79-81 | an archived option tag is valid exactly when it is 0 or 1, and then it is that tag |
| FlashStore.EncodeHeader | crates/demo-esp32-s3/src/storage/internal.rs:18-28 | the archived header has the fixed size `HEADER_SIZE` |
| FlashStore.DecodeHeader | crates/demo-esp32-s3/src/storage/internal.rs:79-83 | access succeeds exactly when both option tags are valid |
| FlashStore.DecodeEncodeHeader | crates/demo-esp32-s3/src/storage/internal.rs:79-97 | round trip of the archived header |
| FlashStore.HeaderBytes | crates/demo-esp32-s3/src/storage/internal.rs:95-97 | what `write_header` writes: the magic followed by the archived header |
| FlashStore.FetchWrittenHeader | crates/demo-esp32-s3/src/storage/internal.rs:64-105 | round trip: a header written with `write_header` is fetched back unchanged |
| FlashStore.FetchHeaderAt | crates/demo-esp32-s3/src/storage/internal.rs:64-85 | wherever the magic and an archived header are found, fetching there gives that header |
| FlashStore.FetchHeader | crates/demo-esp32-s3/src/storage/internal.rs:64-85 | `fetch_header`: magic, then a decodable header; stated by FetchWrittenHeader, FetchHeaderAt, FetchHeaderOutside and NukedHeaderIsBad |
| FlashStore.FetchHeaderOutside | crates/demo-esp32-s3/src/storage/internal.rs:64-85 | writes past the header leave the fetched header unchanged |
| FlashStore.NukedHeaderIsBad | crates/demo-esp32-s3/src/storage/internal.rs:119-129 | after `nuke` zeroes the header sector, fetching the header fails with `BadHeader` |
| FlashStore.Record | crates/demo-esp32-s3/src/storage/internal.rs:308-327 | a record is magic, archived size and item, and its length is `item_size` |
| FlashStore.FetchSegment | crates/demo-esp32-s3/src/storage/internal.rs:175-215 | an offset beyond `u32` is an IO error; otherwise the fetch succeeds exactly when the segment magic is at `base + DATA_OFFSET + offset`, and returns the number of bytes the archived size gives, read after the size |
| FlashStore.FetchWrittenRecord | crates/demo-esp32-s3/src/storage/internal.rs:175-215 | round trip: a record written at a data offset is fetched back as its item |
| FlashStore.FetchRecordAt | crates/demo-esp32-s3/src/storage/internal.rs:175-215 | wherever a record's bytes are found, fetching there gives its item |
| FlashStore.FetchedIsRecord | crates/demo-esp32-s3/src/storage/internal.rs:175-215 | converse: a fetched item is stored there as its record |
| FlashStore.FetchSegmentOutside | crates/demo-esp32-s3/src/storage/internal.rs:175-215 | writes that do not overlap a record leave it fetchable as before |
| FlashStore.Updated | crates/demo-esp32-s3/src/storage/internal.rs:256-262 | the epoch is bumped, wrapping at 2^32; `append` adds to `stored_bytes` and `commit` sets the head, `commit` failing when a location index does not fit in a `u32` (its `try_into`); `create` sets the graph id. The source's `stored_bytes += item_size` is an unchecked add, which cannot overflow because `append` first rejects a record that would pass the partition size (internal.rs:309); the model's `None` for that sum is that unreachable case |
| FlashStore.UpdateVerified | crates/demo-esp32-s3/src/storage/internal.rs:256-271 | a fault-free update is confirmed by the read-back, becomes the cache, and is what the header then holds |
| FlashStore.UpdateOutcome | crates/demo-esp32-s3/src/storage/internal.rs:256-271 | `update_header` as a value: medium, cache and result; stated by UpdateVerified, UpdateReadBackMismatch, UpdateOutsideData and Writer.UpdateHeader |
| FlashStore.UpdateReadBackMismatch | crates/demo-esp32-s3/src/storage/internal.rs:265-269 | when other header bytes land and decode to a different header, the update fails with `Write` and the cache takes the read-back value |
| FlashStore.UpdateOutsideData | crates/demo-esp32-s3/src/storage/internal.rs:256-271 | a header update changes nothing from the data region on |
| FlashStore.Reader.constructor | crates/demo-esp32-s3/src/storage/internal.rs:131-137 | the reader is over the given medium and base |
| FlashStore.Reader.Fetch | crates/demo-esp32-s3/src/storage/internal.rs:175-215 | `fetch` returns what the medium holds at the offset, as `FetchSegment` states |
| FlashStore.Writer.constructor | crates/demo-esp32-s3/src/storage/internal.rs:242-254 | the writer caches the given header |
| FlashStore.Writer.ReadOnly | crates/demo-esp32-s3/src/storage/internal.rs:281-286 | the reader shares the writer's medium and base |
| FlashStore.Writer.Head | crates/demo-esp32-s3/src/storage/internal.rs:288-296 | the cached head as a location, or `NoSuchStorage` exactly when none was committed |
| FlashStore.Writer.UpdateHeader | crates/demo-esp32-s3/src/storage/internal.rs:256-271 | the medium, the cache and the result are those of `UpdateOutcome`: bump, edit, write, read back, compare |
| FlashStore.Writer.Append | crates/demo-esp32-s3/src/storage/internal.rs:298-342 | the medium, cache and result are those of `AppendOutcome`: out of space is an IO error; otherwise the record is written at the old `stored_bytes` and the header grows by its size |
| FlashStore.AppendOutcome | crates/demo-esp32-s3/src/storage/internal.rs:298-342 | `append` as a value: the record is written, then the header grows; stated by AppendWritesThenGrows, AppendStoresRecord, AppendKeepsEarlier and Writer.Append |
| FlashStore.Writer.Commit | crates/demo-esp32-s3/src/storage/internal.rs:344-361 | the head (segment and command) is recorded through `update_header`; any failure is reported as an IO error |
| FlashStore.AppendWritesThenGrows | crates/demo-esp32-s3/src/storage/internal.rs:298-342 | an append that fits and whose data write does not fail goes on to grow the header over the written record |
| FlashStore.GrowHeaderKeepsRecord | crates/demo-esp32-s3/src/storage/internal.rs:335-341 | growing the header keeps the new record fetchable and the header readable with the grown size |
| FlashStore.GrowHeader | crates/demo-esp32-s3/src/storage/internal.rs:335-341 | the header update that ends `append`; stated by GrowHeaderKeepsRecord and GrowHeaderKeepsSegments |
| FlashStore.GrowHeaderKeepsSegments | crates/demo-esp32-s3/src/storage/internal.rs:335-341 | growing the header leaves every fetchable segment as it was |
| FlashStore.AppendStoresRecord | crates/demo-esp32-s3/src/storage/internal.rs:298-342 | a fault-free append that fits stores its item at the old `stored_bytes` (fetched back as the item) and grows `stored_bytes` by the record size |
| FlashStore.AppendKeepsEarlier | crates/demo-esp32-s3/src/storage/internal.rs:298-342 | a fault-free append leaves every segment stored before the old `stored_bytes` fetchable as before |
| FlashStore.PartitionManager.Of | crates/demo-esp32-s3/src/storage/internal.rs:364-371 | the manager is over the given medium, base and size |
| FlashStore.PartitionManager.Create | crates/demo-esp32-s3/src/storage/internal.rs:420-435 | an unreadable header is `NoSuchStorage`, a header that names a graph is `StorageExists`; otherwise the id is recorded through `update_header` and a writer with the new header is returned |
| FlashStore.PartitionManager.Open | crates/demo-esp32-s3/src/storage/internal.rs:437-454 | an unreadable header or a different recorded id is `NoSuchStorage`; otherwise a writer over the fetched header, also when no id is recorded |
| FlashStore.PartitionManager.List | crates/demo-esp32-s3/src/storage/internal.rs:456-462 | `NoSuchStorage` exactly when the header is unreadable; otherwise the recorded id, if any |
| FlashStore.Initialize | crates/demo-esp32-s3/src/storage/internal.rs:377-410 | a readable header is left alone; an unreadable one is overwritten with the empty header, and a failure of that write is the panic |
| FlashStore.InitializedHeaderReadable | crates/demo-esp32-s3/src/storage/internal.rs:382-393 | after the empty header is written, it is fetched back |
| FlashStore.Nuke | crates/demo-esp32-s3/src/storage/internal.rs:119-129 | the header sector is zeroed; the result is an IO error exactly when the write fails |
| FlashStore.CreateThenOpen | crates/demo-esp32-s3/src/storage/internal.rs:420-454 | `create` on a partition with no graph records the id and is read back with it |
| OldFlashStore.EncodeHeader | src/storage/internal.rs:21-28 | the archived header: epoch in the first four bytes, little-endian |
| OldFlashStore.DecodeHeader | src/storage/internal.rs:78-82 | access fails exactly when the head tag is invalid |
| OldFlashStore.DecodeEncodeHeader | src/storage/internal.rs:79-94 | round trip of the archived header |
| OldFlashStore.HeaderBytes | src/storage/internal.rs:86-100 | `write_header` writes the archived header alone, with no magic |
| OldFlashStore.FetchHeader | src/storage/internal.rs:65-85 | the magic must be at the offset and the archived header must decode after it |
| OldFlashStore.MagicIsOneEpoch | src/storage/internal.rs:74 | the only epoch whose bytes pass the magic check is 0x004F531C |
| OldFlashStore.WrittenHeaderIsBad | src/storage/internal.rs:65-100 | as written: a header written by `write_header` is not fetched back (`BadHeader`) unless its epoch spells the magic |
| OldFlashStore.Updated | src/storage/internal.rs:197-202 | the epoch is bumped, wrapping; `commit` records the head's segment twice, failing when the segment index does not fit in a `u32` (its `try_into`). The source's `stored_bytes += bytes.len()` (internal.rs:253) is an unchecked add; it cannot overflow in practice, since the flash write at `base + DATA_OFFSET + stored_bytes` fails first once the offset leaves the partition. The model's `None` for that sum stands for that unreachable case |
| OldFlashStore.UpdateNeverVerifies | src/storage/internal.rs:197-215 | as written: every fault-free header update fails its read-back, with the cache unchanged, unless the new epoch spells the magic |
| OldFlashStore.UpdateOutcome | src/storage/internal.rs:197-218 | `update_header` as a value: medium, cache and result; stated by UpdateNeverVerifies and Writer.UpdateHeader |
| OldFlashStore.FetchSegment | src/storage/internal.rs:138-172 | the magic is looked for at `base + offset`, and the data is read from `base + offset + 4`, which is where the size is |
| OldFlashStore.FetchStartsAtSize | src/storage/internal.rs:160-171 | as written: the first four bytes handed to the deserialiser are the size field |
| OldFlashStore.Reader.constructor | src/storage/internal.rs:114-120 | the reader is over the given medium and base |
| OldFlashStore.Reader.Fetch | src/storage/internal.rs:138-172 | `fetch` returns what `FetchSegment` gives for the medium |
| OldFlashStore.Writer.constructor | src/storage/internal.rs:188-195 | the writer caches the given header |
| OldFlashStore.Writer.ReadOnly | src/storage/internal.rs:221-226 | the reader shares the writer's medium and base |
| OldFlashStore.Writer.Head | src/storage/internal.rs:228-233 | the cached head, or `NoSuchStorage` exactly when none was committed |
| OldFlashStore.Writer.UpdateHeader | src/storage/internal.rs:197-218 | medium, cache and result are those of `UpdateOutcome` |
| OldFlashStore.Writer.Append | src/storage/internal.rs:235-259 | the raw item is written at `base + DATA_OFFSET + stored_bytes`, with no magic or size, then the header grows by the item's length |
| OldFlashStore.Writer.Commit | src/storage/internal.rs:261-277 | the head is recorded as `(segment, segment)` through `update_header` |
| OldFlashStore.PartitionManager.constructor | src/storage/internal.rs:293-319 | a readable header is left alone; otherwise the empty header is written, and a failed write is the `expect` panic (`alive` false) |
| OldFlashStore.PartitionManager.Create | src/storage/internal.rs:328-330 | a writer over the current header whatever the id; none exactly when the header is unreadable, where `Writer::new` panics |
| OldFlashStore.PartitionManager.Open | src/storage/internal.rs:332-334 | `open` always returns no writer |
| OldFlashStore.InitializedStillBad | src/storage/internal.rs:293-330 | as written: initialising a bad header leaves it bad, so `create` then panics |
| OldFlashStore.AppendedNotFetched | src/storage/internal.rs:138-259 | as written: an item appended to blank flash is not fetched from its offset |
| OldFlashStore.CommitDropsCommand | src/storage/internal.rs:261-271 | as written: committing segment 1, command 2 records `(1, 1)` |
| LinearStore.Stamped | src/aranya/linear_store/imp.rs:233-240 | the stamped root carries the checksum of its own fields and differs from the input in the checksum only |
| LinearStore.NewRoot | src/aranya/linear_store/imp.rs:224-231 | a new root has generation 0, no head (both indices `usize::MAX`) and its free offset at `FREE_START` |
| LinearStore.DecodeRoot | src/aranya/linear_store/imp.rs:211-221 | a decoded root's fields are within the ranges of their Rust types |
| LinearStore.RootRoundTrip | src/aranya/linear_store/imp.rs:211-221 | round trip: a root decodes from its postcard encoding, whatever bytes follow |
| LinearStore.EncodeRoot | src/aranya/linear_store/imp.rs:211-221 | the postcard encoding of a root; stated by RootRoundTrip, RootSize and LoadRootDumped |
| LinearStore.RootSize | src/aranya/linear_store/imp.rs:86-95 | an encoded root takes at most 50 bytes, so the copy at A cannot reach the copy at B |
| LinearStore.Frame | src/aranya/linear_store/imp.rs:320-331 | `dump` writes four length bytes and then exactly the value's bytes |
| LinearStore.Load | src/aranya/linear_store/imp.rs:333-343 | a successful `load` returns as many bytes as the big-endian length says, taken right after the length and inside the file |
| LinearStore.LoadDumped | src/aranya/linear_store/imp.rs:320-343 | round trip: `load` at an offset returns what `dump` wrote there |
| LinearStore.LoadOutside | src/aranya/linear_store/imp.rs:320-343 | a `dump` that does not overlap a stored value leaves its `load` unchanged |
| LinearStore.RootFrame | src/aranya/linear_store/imp.rs:156-168 | a dumped root takes at most 54 bytes |
| LinearStore.LoadRoot | src/aranya/linear_store/imp.rs:242-248 | a loaded root has fields within the ranges of their Rust types |
| LinearStore.LoadRootDumped | src/aranya/linear_store/imp.rs:156-168 | round trip: a root dumped at an offset is loaded back from it |
| LinearStore.LoadRootOutside | src/aranya/linear_store/imp.rs:156-168 | dumping a root elsewhere leaves a stored root's `load` unchanged |
| LinearStore.Choose | src/aranya/linear_store/imp.rs:134-146 | `open` fails only when neither copy loads; with both loaded it takes the higher generation and rewrites the other copy, or rewrites nothing when the generations are equal; with one loaded it takes it and rewrites the other |
| LinearStore.Validated | src/aranya/linear_store/imp.rs:242-248 | the checking `validate`: a root is accepted exactly when its checksum matches its fields |
| LinearStore.CheckedOpenIsSound | src/aranya/linear_store/imp.rs:120-154 | with the checking `validate`, `open` only trusts a root whose checksum matches |
| LinearStore.OpenRootChecked | src/aranya/linear_store/imp.rs:120-154 | the root `open` selects with a checking `validate`; stated by CheckedOpenIsSound, TornRootRejected and OpenAfterWriteRoot |
| LinearStore.BadChecksumTrusted | src/aranya/linear_store/imp.rs:134-146 | as written: a root at A with a wrong checksum and a higher generation is chosen over a sound root at B |
| LinearStore.OpenRoot | src/aranya/linear_store/imp.rs:120-154 | the root `open` selects from the two copies; stated by BadChecksumTrusted, OpenAfterWriteRoot, OpenBetweenRootWrites, CreatedFileNotOpenable and FileManager.Open |
| LinearStore.TornRootRejected | src/aranya/linear_store/imp.rs:134-151 | with the checking `validate`, the same file opens on the sound root at B and rewrites A |
| LinearStore.OpenAfterWriteRoot | src/aranya/linear_store/imp.rs:120-168 | once `write_root` has written both copies, `open` returns that root and rewrites nothing |
| LinearStore.OpenBetweenRootWrites | src/aranya/linear_store/imp.rs:120-168 | interrupted after writing A only, `open` returns the new root and rewrites B |
| LinearStore.FileHandle.constructor | src/aranya/linear_store/imp.rs:267-272 | the handle holds the given file contents |
| LinearStore.FileHandle.Dump | src/aranya/linear_store/imp.rs:320-331 | `dump` writes the frame at the offset, returns the offset past it, and `load` then returns the value |
| LinearStore.Reader.constructor | src/aranya/linear_store/imp.rs:251-255 | the reader shares the given file |
| LinearStore.Reader.Fetch | src/aranya/linear_store/imp.rs:258-264 | `fetch` is `load` at the offset |
| LinearStore.Writer.constructor | src/aranya/linear_store/imp.rs:79-83 | the writer holds the given file and root |
| LinearStore.Writer.ReadOnly | src/aranya/linear_store/imp.rs:173-177 | the reader shares the writer's file |
| LinearStore.Writer.Head | src/aranya/linear_store/imp.rs:179-184 | `head` always succeeds with the root's head, even before the first commit |
| LinearStore.Writer.WriteRoot | src/aranya/linear_store/imp.rs:156-168 | the generation goes up by one, the checksum is recomputed, and the new root is dumped at A and then at B |
| LinearStore.Writer.Append | src/aranya/linear_store/imp.rs:186-200 | the builder is given the free offset; the item is dumped there; the free offset moves past it and the root is rewritten |
| LinearStore.Writer.Commit | src/aranya/linear_store/imp.rs:202-206 | the head is set and the root is rewritten |
| LinearStore.FetchAppended | src/aranya/linear_store/imp.rs:186-200 | an appended item is fetched back from the offset the builder was given |
| LinearStore.AppendKeepsEarlier | src/aranya/linear_store/imp.rs:186-200 | an append leaves every value stored below the old free offset fetchable as before |
| LinearStore.CreatedFileNotOpenable | src/aranya/linear_store/imp.rs:98-154 | a file just created holds no root, so `open` on it fails |
| LinearStore.FileManager.constructor | src/aranya/linear_store/imp.rs:55-60 | a new manager has no graph id |
| LinearStore.FileManager.Create | src/aranya/linear_store/imp.rs:66-70 | the id is recorded and the writer holds a new root over the file, with nothing written |
| LinearStore.FileManager.Open | src/aranya/linear_store/imp.rs:120-154 | fails exactly when no root loads; otherwise the writer holds the chosen root, the stale copy is rewritten from it, and with no stale copy the file is unchanged |
| LinearStore.Filename83 | src/aranya/linear_store/imp.rs:347-357 | the name is at most eight leading characters of the id, then `.bin`, and an id of up to eight characters is kept whole |
| LinearStore.FilenameCollision | src/aranya/linear_store/imp.rs:347-357 | two ids that agree in their first eight characters get the same file |
| LinearStore.ReadExactAsWritten | src/aranya/linear_store/imp.rs:275-297 | as written: the bytes come from the file's cursor whatever the offset; an IO error when the file ends first |
| LinearStore.CursorMissesRoot | src/aranya/linear_store/imp.rs:275-297 | as written: for a file holding a root, the four bytes at a fresh cursor (zeros) are not the root's length at A |
| LinearStore.WriteAllAsWritten | src/aranya/linear_store/imp.rs:299-313 | as written: a non-empty buffer is written again every round and the loop never finishes; an empty one finishes at once |
| GraphStore.DecodeLocation | src/aranya/graph_store.rs:106-116 | a decoded location's indices fit in a `usize` |
| GraphStore.LocationRoundTrip | src/aranya/graph_store.rs:232-298 | round trip: a location decodes from its encoding, whatever bytes follow |
| GraphStore.HeadFrom | src/aranya/graph_store.rs:106-116 | nothing read gives `Location(0, 0)`; otherwise the head is found exactly when the bytes decode |
| GraphStore.ReadIndex | src/aranya/graph_store.rs:176-186 | nothing read is the empty index; a decoded index holds `usize` values |
| GraphStore.NextLocations | src/aranya/graph_store.rs:191-193 | the index grows by one entry, the old last end plus the item's length, and its earlier entries are kept |
| GraphStore.NextKeepsIncreasing | src/aranya/graph_store.rs:191-193 | appending a non-empty item keeps the index strictly increasing |
| GraphStore.Search | src/aranya/graph_store.rs:350-362 | a position holding the value, or none exactly when no entry equals it; this is what `binary_search` promises only on a sorted index, which the store keeps (`EndsIncreasing`), and there the position is the unique one (`SearchFinds`) |
| GraphStore.SearchFinds | src/aranya/graph_store.rs:350-362 | on a strictly increasing index every entry is found at its own position |
| GraphStore.Span | src/aranya/graph_store.rs:350-365 | a span found ends at or after the offset; an offset not in the index (other than 0) is a head mismatch |
| GraphStore.ReadSpan | src/aranya/graph_store.rs:376-385 | a read succeeds exactly when the bytes are there, and returns them; a short read panics rather than failing |
| GraphStore.ReadToEnd | src/aranya/graph_store.rs:316-327 | the loop of 16-byte reads returns the file from its cursor to its end, leaving the cursor at the end and the contents unchanged |
| GraphStore.GraphReader.constructor | src/aranya/graph_store.rs:302-306 | the reader holds the given files |
| GraphStore.GraphReader.Fetch | src/aranya/graph_store.rs:309-405 | the index is read from the location file's cursor; an unreadable index is an IO error, a mismatch or a missing next entry is reported, and the span is read from the data file's cursor |
| GraphStore.GraphWriter.constructor | src/aranya/graph_store.rs:53-68 | the writer holds the given files |
| GraphStore.GraphWriter.ReadOnly | src/aranya/graph_store.rs:73-79 | the reader shares the writer's location and data files |
| GraphStore.GraphWriter.Head | src/aranya/graph_store.rs:81-119 | the head is parsed from the head file's cursor to its end |
| GraphStore.GraphWriter.Append | src/aranya/graph_store.rs:121-230 | the builder is given the data file's length; an empty item panics; the item is written at the data cursor; the index read from the location cursor is extended and rewritten from the start of the location file |
| GraphStore.GraphWriter.Commit | src/aranya/graph_store.rs:232-298 | the old head is read from the head cursor; an unreadable one is an IO error, otherwise the new head is written at the start of the head file |
| GraphStore.NewWriter | src/aranya/graph_store.rs:411-537 | a writer over three fresh, empty files |
| GraphStore.CommitThenHead | src/aranya/graph_store.rs:81-119 | as written: right after a commit, `head` reads from the end of the file and returns `Location(0, 0)` |
| GraphStore.AppendTwice | src/aranya/graph_store.rs:157-193 | as written: after two appends the index holds only the second item's length |
| GraphStore.AppendThenFetch | src/aranya/graph_store.rs:309-385 | as written: the first appended item is not fetched back; the fetch panics |
| GraphStore.PutPrefix | src/aranya/graph_store.rs:203-213 | a write at the start of a file leaves the written bytes as its prefix |
| GraphStore.CommittedHeadRead | src/aranya/graph_store.rs:81-119 | read from the start of the head file, a committed head comes back |
| GraphStore.WrittenIndexRead | src/aranya/graph_store.rs:176-213 | read from the start of the location file, a written index comes back |
| GraphStore.Ends | src/aranya/graph_store.rs:191-193 | the index after storing items in order has one entry per item |
| GraphStore.EndsGrow | src/aranya/graph_store.rs:191-193 | `NextLocations` is how that index grows with each item |
| GraphStore.ConcatPrefix | src/aranya/graph_store.rs:147-149 | the data file after storing a prefix of the items is a prefix of the data file after storing them all |
| GraphStore.EndsIncreasing | src/aranya/graph_store.rs:350-362 | with non-empty items the index is strictly increasing, as the binary search needs |
| GraphStore.ItemSlice | src/aranya/graph_store.rs:376-385 | item `k` lies in the data file between its start and its end in the index |
| GraphStore.SpanOfItem | src/aranya/graph_store.rs:350-365 | the index yields the span of item `k` from its start offset |
| GraphStore.FetchStored | src/aranya/graph_store.rs:309-405 | fetching at the offset the builder was given returns the stored item, when the files are read from their start |
| GraphStore.FetchAt | src/aranya/graph_store.rs:309-405 | `fetch` as evidently meant, reading the span at the offset of the data file; stated by FetchStored |
| GraphStore.GraphManager.constructor | src/aranya/graph_store.rs:36-40 | the manager starts with the given file names on the card |
| GraphStore.GraphManager.Create | src/aranya/graph_store.rs:411-474 | the three files `d_`, `l_` and `h_` exist afterwards and the writer's files are empty |
| GraphStore.GraphManager.Open | src/aranya/graph_store.rs:476-537 | `NoSuchStorage` exactly when one of the three files is missing; otherwise a writer over the files, emptied by the truncating mode |
| GraphStore.LastDot | src/aranya/graph_store.rs:541-557 | the position of a `.` with none after it, or none exactly when the name has no `.` |
| GraphStore.TruncateKeepsExtension | src/aranya/graph_store.rs:541-557 | a name with one extension keeps it and at most `max` characters of its base |
| GraphStore.TruncateFilename | src/aranya/graph_store.rs:541-557 | `truncate_filename`: the base cut to the limit, the extension kept; stated by TruncateKeepsExtension and TruncateNoDot |
| GraphStore.TruncateNoDot | src/aranya/graph_store.rs:541-557 | a short name with no `.` comes out as the name, a dot and the name again |
| GraphStore.GraphFileName | src/aranya/graph_store.rs:425-453 | a graph's file name is its two-character prefix, six characters of the id, and `.b` |
| GraphStore.GraphFile | src/aranya/graph_store.rs:425-453 | the 8.3 file name of a graph; stated by GraphFileName, GraphFilesCollide, GraphManager.Create and GraphManager.Open |
| GraphStore.GraphFilesCollide | src/aranya/graph_store.rs:425-453 | two graphs whose ids share their first six characters share their files |
| ChatSyncer.IndexOf | crates/chat-app/src/aranya/syncer.rs:96 | the position of the first occurrence of a queued address |
| ChatSyncer.InsertMembers | crates/chat-app/src/aranya/syncer.rs:359-360 | inserting into the sync queue keeps it duplicate-free and within MAX_PEERS, and adds the address exactly when there is room; a full queue drops it |
| ChatSyncer.RemoveEntries | crates/chat-app/src/aranya/syncer.rs:154 | the swap-remove: the last entry fills the hole and every other entry stays in place |
| ChatSyncer.RemoveKeepsOthers | crates/chat-app/src/aranya/syncer.rs:154 | after a swap-remove an address is queued exactly when it was queued before and is not the removed one, unless it occurs twice |
| ChatSyncer.RemoveDistinct | crates/chat-app/src/aranya/syncer.rs:154 | a swap-remove keeps the queue duplicate-free |
| ChatSyncer.RemoveMembers | crates/chat-app/src/aranya/syncer.rs:154 | removing from the queue keeps it well-formed, and the queued addresses become exactly the old ones other than the removed one |
| ChatSyncer.Init | crates/chat-app/src/aranya/syncer.rs:109-120 | a new engine satisfies the engine invariant: empty queue, no session, no boost |
| ChatSyncer.HelloTimeoutHalves | crates/chat-app/src/aranya/syncer.rs:192-194 | each level of boost halves the Hello period, from 1000 ms with no boost to 125 ms at boost 3 |
| ChatSyncer.SendHelloEffect | crates/chat-app/src/aranya/syncer.rs:201-235 | when the head is found and the network is up, exactly one message is broadcast: a Hello from this device carrying its head and a peer count of 0; the boost drops by one unless zero, the Hello time is now, and nothing else changes; otherwise the call fails and nothing changes |
| ChatSyncer.SmallHello | crates/chat-app/src/aranya/syncer.rs:224 | a well-formed Hello fits the message length field |
| ChatSyncer.SyncPeerOpens | crates/chat-app/src/aranya/syncer.rs:131-170 | with no session, a session with this peer is opened with no transaction and now as its last-seen time, and the peer gets a cache; the call succeeds exactly when the poll and the send succeed, and then exactly one Request, holding the polled bytes, has been sent to the peer |
| ChatSyncer.SyncPeerExisting | crates/chat-app/src/aranya/syncer.rs:146-158 | with a session open, nothing is sent; a session seen within eight seconds is left alone; a stalled one commits its transaction, is closed, and its peer leaves the queue |
| ChatSyncer.ProcessResponseSession | crates/chat-app/src/aranya/syncer.rs:268-314 | a response from anyone but the session's peer is a session mismatch that changes nothing; otherwise the session ends exactly when the requester has nothing more, and otherwise is marked seen now |
| ChatSyncer.ResponseFinishes | crates/chat-app/src/aranya/syncer.rs:298-311 | when the requester is done the session ends and its transaction is committed; on success the peer leaves the queue; nothing is sent and no cache changes |
| ChatSyncer.ResponseAddsCommands | crates/chat-app/src/aranya/syncer.rs:285-297 | received commands go into the session's transaction, created when missing, after what it held, whenever the add succeeds; the response succeeds exactly when the add succeeds, storage opens and no command's address fails its lookup or cache insert; on success the peer's cache gains exactly the located command addresses; a failed add is AddFailed and leaves the cache as it was; any other failure is StorageFailed |
| ChatSyncer.HelloKeysOnPayload | crates/chat-app/src/aranya/syncer.rs:344-362 | a Hello is handled the same whoever sent it and changes nothing but the queue; a decoded Hello succeeds exactly when storage opens and the lookup of its head does not fail, and a failure changes nothing; a head this device holds removes the advertised address from the queue, an unknown head queues it when there is room |
| ChatSyncer.HelloStep | crates/chat-app/src/aranya/syncer.rs:344-362 | a received Hello keyed on the address inside it: a storage error while its head is looked up is returned, a known head dequeues that address, an unknown one queues it unless the queue is full; stated through HelloKeysOnPayload, HelloPreserves and HandleMessagePreserves |
| ChatSyncer.HelloPreserves | crates/chat-app/src/aranya/syncer.rs:344-362 | handling a Hello keeps the engine invariant and sends nothing |
| ChatSyncer.ResponsePreserves | crates/chat-app/src/aranya/syncer.rs:268-314 | handling a Response keeps the engine invariant and sends nothing |
| ChatSyncer.DriveFirstOnlyFirst | crates/chat-app/src/aranya/syncer.rs:184-189 | `process` syncs only the first queued peer: everything sent goes to it, the engine invariant holds, and a peer whose sync fails leaves the queue |
| ChatSyncer.NoNewHelloTrans | crates/chat-app/src/aranya/syncer.rs:173-190 | "sends no Hello" composes over successive steps |
| ChatSyncer.HandleMessagePreserves | crates/chat-app/src/aranya/syncer.rs:324-365 | handling a message keeps the engine invariant and never sends a Hello |
| ChatSyncer.HandleAllPreserves | crates/chat-app/src/aranya/syncer.rs:316-322 | handling all waiting messages keeps the engine invariant and sends no Hello |
| ChatSyncer.DriveFirstNoHello | crates/chat-app/src/aranya/syncer.rs:184-189 | syncing the first peer sends no Hello |
| ChatSyncer.ProcessPreserves | crates/chat-app/src/aranya/syncer.rs:173-190 | one iteration of `process` keeps the engine invariant, only appends to what was sent, and broadcasts no Hello unless one was due |
| ChatSyncer.Engine.constructor | crates/chat-app/src/aranya/syncer.rs:109-120 | a new engine is in the state `Init` describes |
| ChatSyncer.Engine.BoostHello | crates/chat-app/src/aranya/syncer.rs:196-199 | the boost becomes 3 and the last Hello time 0, so the next `process` sends a Hello; nothing else changes |
| ChatSyncer.Engine.SendHello | crates/chat-app/src/aranya/syncer.rs:201-235 | the engine moves to the state, and returns the status, that `SendHelloStep` gives |
| ChatSyncer.SendHelloStep | crates/chat-app/src/aranya/syncer.rs:201-235 | `send_hello` on the engine's state: a Hello carrying this device's head is broadcast and the next Hello is scheduled; its effect is stated by SendHelloEffect and Engine.SendHello |
| ChatSyncer.Engine.SyncPeer | crates/chat-app/src/aranya/syncer.rs:131-170 | the engine moves to the state, and returns the status, that `SyncPeerStep` gives |
| ChatSyncer.SyncPeerStep | crates/chat-app/src/aranya/syncer.rs:131-170 | `sync_peer` on the engine's state: a session is opened for the peer unless one exists and a Request is sent; stated by SyncPeerOpens, SyncPeerExisting and DriveFirstOnlyFirst |
| ChatSyncer.Engine.SyncRespond | crates/chat-app/src/aranya/syncer.rs:237-266 | the engine moves to the state, and returns the status, that `SyncRespondStep` gives |
| ChatSyncer.SyncRespondStep | crates/chat-app/src/aranya/syncer.rs:237-266 | `sync_respond` on the engine's state: the request is taken, then one Response per poll until the first failure; stated by Engine.SyncRespond and SyncCommon.RespondSendsResponses |
| ChatSyncer.Engine.ProcessResponse | crates/chat-app/src/aranya/syncer.rs:268-314 | the engine moves to the state, and returns the status, that `ProcessResponseStep` gives |
| ChatSyncer.ProcessResponseStep | crates/chat-app/src/aranya/syncer.rs:268-314 | a Response to one of our requests: the session must match, the commands are added, and a finished session is closed; stated by ProcessResponseSession, ResponseFinishes and ResponseAddsCommands |
| ChatSyncer.Engine.HandleMessage | crates/chat-app/src/aranya/syncer.rs:324-365 | the engine moves to the state, and returns the status, that `HandleMessageStep` gives; a request of another sync type is the `unimplemented!` panic |
| ChatSyncer.HandleMessageStep | crates/chat-app/src/aranya/syncer.rs:324-365 | `handle_message` dispatch on the message type; stated by HelloKeysOnPayload and HandleMessagePreserves |
| ChatSyncer.Engine.HandleMessages | crates/chat-app/src/aranya/syncer.rs:316-322 | the loop over the waiting messages agrees with `HandleAll`: each in turn until the first error |
| ChatSyncer.HandleAll | crates/chat-app/src/aranya/syncer.rs:316-322 | the waiting messages handled in order until the first error; stated by HandleAllPreserves and Engine.HandleMessages |
| ChatSyncer.Engine.Process | crates/chat-app/src/aranya/syncer.rs:173-190 | one iteration agrees with `ProcessStep`: a Hello when due, the waiting messages, then the first queued peer |
| ChatSyncer.ProcessStep | crates/chat-app/src/aranya/syncer.rs:173-190 | `process`: a Hello when due, the waiting messages, then the first queued peer; stated by ProcessPreserves and Engine.Process |
| DemoSyncer.SyncPeerOpens | crates/demo-esp32-s3/src/aranya/syncer.rs:116-162 | a peer with no session gets one, with no transaction and now as its last-seen time, and a cache; the call succeeds exactly when the poll and the send succeed, and then one Request holding the polled bytes has gone to that peer |
| DemoSyncer.SyncPeerExisting | crates/demo-esp32-s3/src/aranya/syncer.rs:136-148 | with a session open for the peer nothing is sent; a session seen within eight seconds is left alone; a stalled one is removed and its transaction committed, the call failing only when that commit fails |
| DemoSyncer.SyncPeerOnlyThatPeer | crates/demo-esp32-s3/src/aranya/syncer.rs:116-162 | `sync_peer` on one peer leaves every other peer's session as it was |
| DemoSyncer.InitiateOpensSessions | crates/demo-esp32-s3/src/aranya/syncer.rs:165-175 | after a round of `initiate` over distinct peers, every listed peer that had no session has one |
| DemoSyncer.KeepsSession | crates/demo-esp32-s3/src/aranya/syncer.rs:165-175 | a round leaves the session of a peer outside the list unchanged |
| DemoSyncer.InitiateSendsRequests | crates/demo-esp32-s3/src/aranya/syncer.rs:165-175 | a round only appends to what was sent, and everything it sends is a Request to a configured peer |
| DemoSyncer.SyncRespondSends | crates/demo-esp32-s3/src/aranya/syncer.rs:177-203 | answering a request sends one Response per responder poll up to the first failure, succeeds exactly when every poll does, and changes no session and no commit |
| DemoSyncer.ProcessResponseSessions | crates/demo-esp32-s3/src/aranya/syncer.rs:205-231 | a response from a peer with no session is a session mismatch that changes nothing; otherwise the session ends exactly when the requester is done, then its transaction is committed; every other peer's session is untouched |
| DemoSyncer.HelloRejected | crates/demo-esp32-s3/src/aranya/syncer.rs:25-29 | this engine's message type has no Hello, so a Hello is rejected as malformed and changes nothing |
| DemoSyncer.Engine.constructor | crates/demo-esp32-s3/src/aranya/syncer.rs:93-105 | a new engine holds the configured peers, at most MAX_PEERS of them, and no sessions or caches |
| DemoSyncer.Engine.SyncPeer | crates/demo-esp32-s3/src/aranya/syncer.rs:116-162 | the engine moves to the state, and returns the status, that `SyncPeerStep` gives |
| DemoSyncer.SyncPeerStep | crates/demo-esp32-s3/src/aranya/syncer.rs:116-162 | `sync_peer` on the engine's state; stated by SyncPeerOpens, SyncPeerExisting, SyncPeerOnlyThatPeer and Engine.SyncPeer |
| DemoSyncer.Engine.Initiate | crates/demo-esp32-s3/src/aranya/syncer.rs:165-175 | one pass of the loop over the configured peers reaches the state `InitiateRound` gives, errors ignored |
| DemoSyncer.InitiateRound | crates/demo-esp32-s3/src/aranya/syncer.rs:165-175 | one `initiate` round over the configured peers in order, errors ignored; stated by InitiateOpensSessions, KeepsSession, InitiateSendsRequests and Engine.Initiate |
| DemoSyncer.Engine.SyncRespond | crates/demo-esp32-s3/src/aranya/syncer.rs:177-203 | the responder loop reaches the state, and returns the status, that `SyncRespondStep` gives |
| DemoSyncer.SyncRespondStep | crates/demo-esp32-s3/src/aranya/syncer.rs:177-203 | `sync_respond` on the engine's state; stated by SyncRespondSends and Engine.SyncRespond |
| DemoSyncer.Engine.ProcessResponse | crates/demo-esp32-s3/src/aranya/syncer.rs:205-231 | the engine moves to the state, and returns the status, that `ProcessResponseStep` gives |
| DemoSyncer.ProcessResponseStep | crates/demo-esp32-s3/src/aranya/syncer.rs:205-231 | a Response to one of our requests; stated by ProcessResponseSessions and Engine.ProcessResponse |
| DemoSyncer.Engine.HandleMessage | crates/demo-esp32-s3/src/aranya/syncer.rs:233-254 | the engine moves to the state, and returns the status, that `HandleMessageStep` gives: a receive error, a malformed message, a response, or a request answered |
| DemoSyncer.HandleMessageStep | crates/demo-esp32-s3/src/aranya/syncer.rs:233-254 | `handle_message`: a Request is answered, a Response taken in, anything else rejected; stated by HelloRejected and Engine.HandleMessage |
| LegacySyncer.SyncPeerSessions | src/aranya/syncer.rs:109-148 | a peer with no session gets one started now; the call succeeds exactly when the poll and the send do, and then one Request with the polled bytes has gone to the peer; a session older than five seconds is dropped with nothing sent, a younger one left alone |
| LegacySyncer.InitiateKeepsOthers | src/aranya/syncer.rs:151-161 | a round of `initiate` leaves the session of a peer outside the list as it was |
| LegacySyncer.OneResponsePerRequest | src/aranya/syncer.rs:163-184 | a request is answered by exactly one Response, to its sender, carrying the responder's bytes (even none), with no session changed |
| LegacySyncer.ProcessResponseEndsSession | src/aranya/syncer.rs:186-206 | a response from a peer with no session is a session mismatch; otherwise the session is removed whatever follows; an empty response succeeds at once; a requester with no answer is `MissingSyncResponse`; commands are added exactly when there are some and adding succeeds |
| LegacySyncer.SecondResponseMismatch | src/aranya/syncer.rs:186-193 | a second response to the same request finds no session |
| LegacySyncer.Engine.constructor | src/aranya/syncer.rs:90-98 | a new engine holds the configured peers and no sessions |
| LegacySyncer.Engine.SyncPeer | src/aranya/syncer.rs:109-148 | the engine moves to the state, and returns the status, that `SyncPeerStep` gives |
| LegacySyncer.SyncPeerStep | src/aranya/syncer.rs:109-148 | `sync_peer` on the engine's state; stated by SyncPeerSessions and Engine.SyncPeer |
| LegacySyncer.Engine.Initiate | src/aranya/syncer.rs:151-161 | one pass over the configured peers reaches the state `InitiateRound` gives, errors ignored |
| LegacySyncer.InitiateRound | src/aranya/syncer.rs:151-161 | one `initiate` round over the configured peers in order; stated by InitiateKeepsOthers and Engine.Initiate |
| LegacySyncer.Engine.SyncRespond | src/aranya/syncer.rs:163-184 | the engine moves to the state, and returns the status, that `SyncRespondStep` gives |
| LegacySyncer.SyncRespondStep | src/aranya/syncer.rs:163-184 | `sync_respond`: one poll sent back as one Response; stated by OneResponsePerRequest and Engine.SyncRespond |
| LegacySyncer.Engine.ProcessResponse | src/aranya/syncer.rs:186-206 | the engine moves to the state, and returns the status, that `ProcessResponseStep` gives |
| LegacySyncer.ProcessResponseStep | src/aranya/syncer.rs:186-206 | a Response to one of our requests; stated by ProcessResponseEndsSession, SecondResponseMismatch and Engine.ProcessResponse |
| LegacySyncer.Engine.HandleMessage | src/aranya/syncer.rs:208-225 | the engine moves to the state, and returns the status, that `HandleMessageStep` gives |
| LegacySyncer.HandleMessageStep | src/aranya/syncer.rs:208-225 | `handle_message` dispatch on the message type; stated by Engine.HandleMessage |
| SyncCommon.TagOf | crates/chat-app/src/aranya/syncer.rs:27-32 | the variant index of a message type is below 3 |
| SyncCommon.TypeOf | crates/chat-app/src/aranya/syncer.rs:27-32 | an index names a message type exactly when it is below 3, and then the type whose index it is |
| SyncCommon.DecodeSync | crates/chat-app/src/aranya/syncer.rs:63-69 | a decoded message has a type the engine knows (the chat engine has three, the others two) |
| SyncCommon.SyncRoundTrip | crates/chat-app/src/aranya/syncer.rs:55-69 | round trip: a sync message decodes from its postcard encoding, whatever bytes follow |
| SyncCommon.EncodeSync | crates/chat-app/src/aranya/syncer.rs:55-69 | the postcard encoding of a SyncMessage; its inverse is stated by SyncRoundTrip |
| SyncCommon.IntoMessage | crates/chat-app/src/aranya/syncer.rs:55-61 | `into_message` addresses the message from the sender to the recipient |
| SyncCommon.FromMessage | crates/chat-app/src/aranya/syncer.rs:63-69 | `from_message` returns the message's sender with the decoded contents |
| SyncCommon.MessageRoundTrip | crates/chat-app/src/aranya/syncer.rs:55-69 | a message built by `into_message` comes back from `from_message` with its sender |
| SyncCommon.KindOfInto | crates/chat-app/src/aranya/syncer.rs:55-61 | the type the contents announce is the type put in, whatever the payload |
| SyncCommon.KindOfDecoded | crates/chat-app/src/aranya/syncer.rs:63-69 | a decoded message has the type its contents announce |
| SyncCommon.DecodeHello | crates/chat-app/src/aranya/syncer.rs:34-42 | a decoded Hello is well formed |
| SyncCommon.HelloRoundTrip | crates/chat-app/src/aranya/syncer.rs:224 | round trip: a well-formed Hello decodes from its postcard encoding, whatever bytes follow |
| SyncCommon.EncodeHello | crates/chat-app/src/aranya/syncer.rs:224 | the postcard encoding of a Hello; its inverse is stated by HelloRoundTrip |
| SyncCommon.OrDefault | crates/chat-app/src/aranya/syncer.rs:249 | `entry(peer).or_default()`: the peer gets a cache, and every existing cache is kept |
| SyncCommon.RespondSendsResponses | crates/chat-app/src/aranya/syncer.rs:237-266 | with the network up, the responder loop sends one Response per poll up to the first failed poll, gives the sender a cache when it polls at all, and succeeds exactly when every poll does |
| SyncCommon.ResponsesFor | crates/chat-app/src/aranya/syncer.rs:237-266 | the Responses for the polls up to the first failure, the reference `Respond` is compared with in RespondSendsResponses |
| SyncCommon.Respond | crates/chat-app/src/aranya/syncer.rs:237-266 | the `while responder.ready()` loop as a value; stated by RespondSendsResponses and RespondOnlyResponses |
| SyncCommon.RespondOnlyResponses | crates/chat-app/src/aranya/syncer.rs:237-266 | answering only appends to what was sent, everything appended is a Response, and it never panics |
| SyncCommon.Staged | crates/chat-app/src/aranya/syncer.rs:368-378 | the commands a transaction holds, none when there is no transaction |
| SyncCommon.Commits | crates/chat-app/src/aranya/syncer.rs:150-152 | committing adds one batch when there is a transaction and none otherwise |
| SyncCommon.Known | crates/chat-app/src/aranya/syncer.rs:380-395 | at most one cache entry per command |
| SyncCommon.KnownExactly | crates/chat-app/src/aranya/syncer.rs:380-395 | an address reaches the peer cache exactly when some command has it and storage locates it |
| SyncCommon.AddCommands | crates/chat-app/src/aranya/syncer.rs:368-398 | the loop over the command addresses agrees with `AddCommandsSpec`: a failed add stops before the cache is touched, and the first failing lookup or cache insert ends the loop with StorageFailed |
| SyncCommon.AddCommandsSpec | crates/chat-app/src/aranya/syncer.rs:368-398 | `add_commands` as a value, storage errors included; stated by AddCommands, AddCommandsReusesTrx, AddCommandsCreatesTrx and AddCommandsStorage |
| SyncCommon.Feed | crates/chat-app/src/aranya/syncer.rs:381-395 | the walk that feeds the peer cache, stopping at the first failing address; feeds at most one entry per command; stated by FeedStops |
| SyncCommon.FeedStops | crates/chat-app/src/aranya/syncer.rs:381-395 | the walk goes through exactly when no command's address fails, and then feeds exactly `Known`; otherwise it stops at the first failing command, having fed `Known` of the commands before it |
| SyncCommon.FeedFailed | crates/chat-app/src/aranya/syncer.rs:385-394 | once the walk has failed on a prefix of the commands, the remaining commands feed nothing more |
| SyncCommon.AddCommandsStorage | crates/chat-app/src/aranya/syncer.rs:381-395 | after a successful add the commands stay staged whatever storage answers; the call succeeds exactly when storage opens and no address fails, and then the cache gains exactly `Known`; otherwise it is StorageFailed and the cache has gained `Known` of some prefix of the commands |
| SyncCommon.AddCommandsReusesTrx | crates/chat-app/src/aranya/syncer.rs:376-378 | an existing transaction is reused: what it held stays at the front and the new commands follow |
| SyncCommon.AddCommandsCreatesTrx | crates/chat-app/src/aranya/syncer.rs:376-378 | a missing transaction is created even when adding then fails, and then holds nothing and the cache is unchanged |
| Application.Truncated | crates/chat-app/src/application.rs:94-95 | at most the first eight characters of the device id, and exactly eight when the id has that many |
| Application.ReceivedKeepsInvariant | crates/chat-app/src/application.rs:115-128 | after a MessageReceived the buffer stays within its capacity, keeps its ids distinct, holds the message's id, and ends with the message unless its id was already buffered |
| Application.ReceivedIsQueue | crates/chat-app/src/application.rs:115-128 | messages leave only from the front: the old buffer, less its oldest entry when it was full, is a prefix of the new one |
| Application.Received | crates/chat-app/src/application.rs:115-128 | the message buffer after a MessageReceived; stated by ReceivedKeepsInvariant, ReceivedIsQueue and Application.HandleEffect |
| Application.Newer | crates/chat-app/src/application.rs:155-166 | every message `GetMessages` returns has a timestamp later than the instant, and no more are returned than are buffered |
| Application.NewerExactly | crates/chat-app/src/application.rs:155-166 | the reply holds exactly the buffered messages with a later timestamp |
| Application.Application.constructor | crates/chat-app/src/application.rs:81-88 | a new application has an empty buffer, no unseen messages, no mention, and has signalled and sent nothing |
| Application.Application.UpdateNeopixel | crates/chat-app/src/application.rs:193-198 | the LED task is signalled the current unseen count and mention flag |
| Application.Application.HandleEffect | crates/chat-app/src/application.rs:105-144 | recalled and unknown effects change nothing; a MessageReceived is buffered, and one from another device either raises the mention flag (when it names this device) or counts as unseen, and is signalled; a MessageReceived or AmbientColorChanged whose fields do not convert is the panic; Rainbow and Ambient are passed to the LED task |
| Application.Application.MessagesAfter | crates/chat-app/src/application.rs:155-166 | the filtering loop returns `Newer`: exactly the buffered messages later than the instant, in buffer order |
| Application.Application.HandleSerial | crates/chat-app/src/application.rs:145-182 | `sendmsg` and `rainbow` hand the daemon an action authored by this device and answer Sent; `getmsgs` answers with the newer messages; setting the ambient colour only answers Sent |
| Application.Application.HandleButton | crates/chat-app/src/application.rs:183-187 | a button press clears the unseen count and the mention flag and signals that |
| Serial.Latin1 | crates/chat-app/src/application/serial.rs:184-185 | one byte per character |
| Serial.AsText | crates/chat-app/src/application/serial.rs:245 | the text has one character per byte and converts back to the same bytes |
| Serial.ValidTextChar | crates/chat-app/src/application/serial.rs:122-124 | accepted exactly: BEL, TAB to CR, and the printable ASCII range |
| Serial.HandleSerialCommand | crates/chat-app/src/application/serial.rs:243-256 | `sendmsg` forwards its data as the message; `getmsgs` forwards the decimal instant, and data that is not a `u64` is the `bad instant` panic; any other command forwards nothing |
| Serial.CommandNamesDiffer | crates/chat-app/src/application/serial.rs:244-248 | the two command names are distinct, so the dispatch is unambiguous |
| Serial.ResponseFrame | crates/chat-app/src/application/serial.rs:258-267 | the frame is SOH, the name, STX, the data and EOT, and nothing else |
| Serial.Chunks | crates/chat-app/src/application/serial.rs:269-274 | every chunk is non-empty and at most the packet size |
| Serial.ChunksFlatten | crates/chat-app/src/application/serial.rs:269-274 | the chunks laid end to end give back the buffer |
| Serial.SerialCommandEngine.constructor | crates/chat-app/src/application/serial.rs:131-141 | a new console is idle with empty command and data and has written and forwarded nothing |
| Serial.SerialCommandEngine.SendBuffer | crates/chat-app/src/application/serial.rs:269-274 | one packet per chunk of at most 64 bytes is written, in order |
| Serial.SerialCommandEngine.SendResponse | crates/chat-app/src/application/serial.rs:258-267 | the response frame is written as `send_buffer` writes it |
| Serial.SerialCommandEngine.Respond | crates/chat-app/src/application/serial.rs:220-237 | `msgdata` carries one `author ticks text ETX` line per message; `sent` carries nothing |
| Serial.ResponseBytes | crates/chat-app/src/application/serial.rs:220-237 | the frame a response becomes; stated by SerialCommandEngine.Respond |
| Serial.MessageLines | crates/chat-app/src/application/serial.rs:221-235 | the `msgdata` payload, one `author ticks text ETX` line per message; the loop of SerialCommandEngine.Respond keeps it as its invariant |
| Serial.SerialCommandEngine.DumpClient | crates/chat-app/src/application/serial.rs:180-191 | the SUB key writes a cut line, each line of the client page in chunks followed by CR LF, and another cut line |
| Serial.ClientDump | crates/chat-app/src/application/serial.rs:180-191 | the packets the SUB key writes; stated by SerialCommandEngine.DumpClient and SerialCommandEngine.Step |
| Serial.Next | crates/chat-app/src/application/serial.rs:158-216 | one input byte on the console state: commands are only appended, at most one per byte; the command and data bounds are kept; a panic happens only at EOT in the data state on a `bad instant` dispatch |
| Serial.Run | crates/chat-app/src/application/serial.rs:152-217 | a packet's bytes in order, stopping at the first panic: commands are only appended, at most one per byte, and the buffer bounds are kept |
| Serial.RunAppend | crates/chat-app/src/application/serial.rs:143-217 | reading two packets one after the other, the first without a panic, is reading their concatenation |
| Serial.SerialCommandEngine.Step | crates/chat-app/src/application/serial.rs:150-218 | the new state and the liveness flag are exactly `Next` of the old state and the byte; spelled out: SOH starts a command, ESC jumps to data; when idle, CR prints the banner and SUB dumps the client; in a command STX starts the data, printable bytes are kept up to the capacity, anything else echoes ESC; in data EOT dispatches the command, valid text bytes are kept, anything else echoes ESC |
| Serial.SerialCommandEngine.ReadPacket | crates/chat-app/src/application/serial.rs:152-217 | the new state and the liveness flag are exactly `Run` of the old state over the packet: `Next` folded over its bytes, stopping after the first byte that panics |
| Serial.SendMessageReachesApplication | crates/chat-app/src/application/serial.rs:243-256 | a `sendmsg` command forwards its data as the message text |
| Serial.GetMessagesRoundTrip | crates/chat-app/src/application/serial.rs:246-248 | `getmsgs` with the decimal text of an instant forwards that instant |
| Esp32Time.AsU8 | src/hardware/esp32_time.rs:58 | `as u8` keeps a value that fits |
| Esp32Time.SaturatingAdd | src/hardware/esp32_time.rs:58 | the sum when it fits in a byte, 255 otherwise |
| Esp32Time.Split | src/hardware/esp32_time.rs:56-82 | elapsed seconds split into years of 365 days, months of 30 days, days, hours, minutes and seconds, each below its modulus, adding back up to the total |
| Esp32Time.TimestampAfter | src/hardware/esp32_time.rs:46-85 | every field of the timestamp stays in its range, and the year never goes back |
| Esp32Time.NoCarry | src/hardware/esp32_time.rs:78-82 | each field wraps on its own: one second after second 59 reads second 0 with the minute unchanged |
| Esp32Time.YearArithmetic | src/hardware/esp32_time.rs:57-58 | whole years are cut to eight bits and then added saturating at 255 |
| Esp32Time.ZeroElapsed | src/hardware/esp32_time.rs:46-85 | read within the first second after synchronising, the timer gives the synchronised time back |
| Esp32Time.Esp32TimeSource.constructor | src/hardware/esp32_time.rs:26-31 | the source starts from the given time |
| Esp32Time.Esp32TimeSource.Synchronize | src/hardware/esp32_time.rs:33-37 | the start time becomes the given time and the timer restarts |
| Esp32Time.Esp32TimeSource.GetTimestamp | src/hardware/esp32_time.rs:46-85 | a reading gives a timestamp whose fields are in range and whose year is not before the start |
| Neopixel.PulseWidths | crates/esp-rmt-neopixel/src/neopixel.rs:10-15 | at 80 MHz the pulse widths are 32 and 68 ticks for a 0 bit and 64 and 36 ticks for a 1 bit |
| Neopixel.BytePulses | crates/esp-rmt-neopixel/src/neopixel.rs:78-84 | eight pulses, most significant bit first, a long high phase for each 1 bit |
| Neopixel.Signal | crates/esp-rmt-neopixel/src/neopixel.rs:74-86 | 25 codes: the pulses of green, red and blue, then the end marker |
| Neopixel.ByteRoundTrip | crates/esp-rmt-neopixel/src/neopixel.rs:78-84 | reading the high phases back recovers the byte |
| Neopixel.SingleBit | crates/esp-rmt-neopixel/src/neopixel.rs:79 | pulse `k` carries bit `7 - k` of the byte |
| Neopixel.MasksCover | crates/esp-rmt-neopixel/src/neopixel.rs:78-79 | the eight single-bit masks together recover the byte |
| Neopixel.SignalRoundTrip | crates/esp-rmt-neopixel/src/neopixel.rs:74-86 | the LED recovers the colour from the train: green, red and blue in that order |
| Neopixel.Trains | crates/esp-rmt-neopixel/src/neopixel.rs:77-85 | eight pulses per byte |
| Neopixel.TrainsOfColor | crates/esp-rmt-neopixel/src/neopixel.rs:77-86 | the train is the bytes' pulses one after another, then the end marker |
| Neopixel.Neopixel.constructor | crates/esp-rmt-neopixel/src/neopixel.rs:39-72 | the driver holds the channel and the active-low setting, and has transmitted nothing |
| Neopixel.Neopixel.Board | src/hardware/neopixel.rs:45-72 | the board driver has an active-high power pin driven high, holds the channel and has transmitted nothing |
| Neopixel.Neopixel.BuildSignal | crates/esp-rmt-neopixel/src/neopixel.rs:76-86 | the push loops build exactly `Signal`: the 25-slot buffer never overflows |
| Neopixel.Neopixel.PushByte | crates/esp-rmt-neopixel/src/neopixel.rs:78-84 | the inner loop appends the byte's eight pulses |
| Neopixel.Neopixel.SetColor | crates/esp-rmt-neopixel/src/neopixel.rs:74-95 | without the channel the call fails with `InUse`; a failed transmit fails with the channel lost; otherwise the train is transmitted, and the channel comes back unless the wait panics |
| Neopixel.Neopixel.SetPower | crates/esp-rmt-neopixel/src/neopixel.rs:97-99 | the pin level is `on`, inverted for an active-low supply (the board driver, src/hardware/neopixel.rs:97-99, is active-high) |
| Neopixel.Neopixel.Drop | crates/esp-rmt-neopixel/src/neopixel.rs:102-107 | dropping the driver drives the power pin low |
| BoardNeopixel.TruncateU8 | src/hardware/neopixel.rs:128-132 | `as u8`: a value that fits is kept, and the result agrees with the input modulo 256 |
| BoardNeopixel.SignalledColor | src/hardware/neopixel.rs:120-132 | a colour is signalled exactly for an unrecalled LedColorChanged whose fields convert, and it is the fields cut to eight bits |
| BoardNeopixel.NeopixelSink.constructor | src/hardware/neopixel.rs:112-114 | a new sink has signalled nothing |
| BoardNeopixel.NeopixelSink.Begin | src/hardware/neopixel.rs:118 | `begin` signals nothing |
| BoardNeopixel.NeopixelSink.Consume | src/hardware/neopixel.rs:120-133 | the signal becomes the colour the effect carries, when it carries one, and is otherwise unchanged |
| BoardNeopixel.NeopixelSink.Rollback | src/hardware/neopixel.rs:135 | `rollback` signals nothing |
| BoardNeopixel.NeopixelSink.Commit | src/hardware/neopixel.rs:137 | `commit` signals nothing |
| DumpScript.AlignUp | crates/demo-esp32-s3/storage-dump.py:39-41 | the cursor moves forward by less than the alignment, and lands on a multiple of four when aligning to four |
| DumpScript.AlignUpIdempotent | crates/demo-esp32-s3/storage-dump.py:39-41 | aligning an already aligned cursor leaves it where it is |
| DumpScript.Slice | crates/demo-esp32-s3/storage-dump.py:85-86 | Python slicing: the requested bytes when they are all there, otherwise a shorter slice (empty past the end) |
| DumpScript.U16At | crates/demo-esp32-s3/storage-dump.py:51-55 | the cursor ends two bytes past the (rkyv-aligned) start, and a value is read exactly when those two bytes exist |
| DumpScript.U32At | crates/demo-esp32-s3/storage-dump.py:57-61 | the cursor ends four bytes past the (rkyv-aligned) start, and a value is read exactly when those four bytes exist |
| DumpScript.U32AtReadsLE | crates/demo-esp32-s3/storage-dump.py:57-61 | at an aligned position, four little-endian bytes of `x` read back as `x` |
| DumpScript.LebAt | crates/demo-esp32-s3/storage-dump.py:69-80 | reading a LEB128 value never moves the cursor backwards |
| DumpScript.LebAtDecodes | crates/demo-esp32-s3/storage-dump.py:69-80 | the script's LEB128 reader agrees with the firmware's LEB128 decoder on every suffix, failure included |
| DumpScript.LebAtReadsEncoding | crates/demo-esp32-s3/storage-dump.py:69-80 | the LEB128 encoding of `x` reads back as `x`, leaving the cursor just after it |
| DumpScript.DecodeAt | crates/demo-esp32-s3/storage-dump.py:121-129 | a decoded value has the shape of the decoder used (location pair, address, byte string, command record, array) |
| DumpScript.CommandAt | crates/demo-esp32-s3/storage-dump.py:167-177 | a decoded `CommandData` is a command record |
| DumpScript.OptionAt | crates/demo-esp32-s3/storage-dump.py:63-67 | a present option's payload has the decoder's shape |
| DumpScript.ItemsAt | crates/demo-esp32-s3/storage-dump.py:97-102 | `count` items are read, each with the decoder's shape |
| DumpScript.ArrayAt | crates/demo-esp32-s3/storage-dump.py:97-102 | every element of a length-prefixed array has the decoder's shape |
| DumpScript.PriorAt | crates/demo-esp32-s3/storage-dump.py:15-25 | a prior holds at most two values, each with the decoder's shape |
| DumpScript.PriorRejectsTag | crates/demo-esp32-s3/storage-dump.py:20-21 | a prior whose tag exceeds two is rejected |
| DumpScript.PriorCount | crates/demo-esp32-s3/storage-dump.py:18-25 | a prior that decodes holds exactly as many values as its tag, and the tag is at most two |
| DumpScript.Cursor.constructor | crates/demo-esp32-s3/storage-dump.py:34-37 | a new cursor is over the given bytes, at position 0, in the given mode |
| DumpScript.Cursor.Align | crates/demo-esp32-s3/storage-dump.py:39-41 | the position becomes the old one rounded up to the alignment |
| DumpScript.Cursor.GetU8 | crates/demo-esp32-s3/storage-dump.py:43-46 | returns the byte under the cursor, or nothing past the end, and advances by one |
| DumpScript.Cursor.GetBool | crates/demo-esp32-s3/storage-dump.py:48-49 | reads one byte; the result is true exactly when that byte is non-zero |
| DumpScript.Cursor.PeekBytes | crates/demo-esp32-s3/storage-dump.py:85-86 | the bytes ahead of the cursor, cut short at the end, without moving it |
| DumpScript.Cursor.GetBytes | crates/demo-esp32-s3/storage-dump.py:88-91 | returns the peeked bytes and advances by `n` even when fewer were there |
| DumpScript.Cursor.GetU16 | crates/demo-esp32-s3/storage-dump.py:51-55 | returns and advances as the little-endian u16 reader specifies |
| DumpScript.Cursor.GetU32 | crates/demo-esp32-s3/storage-dump.py:57-61 | returns and advances as the little-endian u32 reader specifies |
| DumpScript.Cursor.GetLeb | crates/demo-esp32-s3/storage-dump.py:69-80 | the collecting loop and the reversed fold return and advance as the LEB128 reader specifies |
| DumpScript.Cursor.GetByteArray | crates/demo-esp32-s3/storage-dump.py:93-95 | a length prefix, then that many bytes |
| DumpScript.Cursor.Decode | crates/demo-esp32-s3/storage-dump.py:121-129 | returns and advances as the decoder's specification says |
| DumpScript.Cursor.GetCommand | crates/demo-esp32-s3/storage-dump.py:167-177 | reads id, priority (with its value when basic), optional policy, data and the update list as specified |
| DumpScript.Cursor.GetOption | crates/demo-esp32-s3/storage-dump.py:63-67 | a presence flag, then the payload when present |
| DumpScript.Cursor.GetItems | crates/demo-esp32-s3/storage-dump.py:99-102 | the loop reads `count` items as specified |
| DumpScript.Cursor.GetArray | crates/demo-esp32-s3/storage-dump.py:97-102 | a count prefix, then that many items |
| DumpScript.Cursor.GetPrior | crates/demo-esp32-s3/storage-dump.py:82-83 | a tag, rejected above two, then that many values |
| DumpScript.HeaderOptionAt | crates/demo-esp32-s3/storage-dump.py:63-67 | a present header option has the shape of its decoder (32-byte id or a pair of u32) |
| DumpScript.HeaderWith | crates/demo-esp32-s3/storage-dump.py:104-116 | a header is read only from an image beginning with the storage header magic |
| DumpScript.HeaderOf | crates/demo-esp32-s3/storage-dump.py:104-116 | the script's header reader (absent options take one byte) accepts only an image beginning with the magic |
| DumpScript.FixedHeaderOf | crates/demo-esp32-s3/storage-dump.py:104-116 | the corrected header reader (absent options keep their full archived width) accepts only an image beginning with the magic |
| DumpScript.NewHeader | crates/demo-esp32-s3/storage-dump.py:104-116 | the cursor steps of `Header.__init__` compute the header reader's result |
| DumpScript.HeaderLayout | crates/demo-esp32-s3/src/storage/internal.rs:87-97 | where each field of a header the firmware writes sits in the image: magic, epoch, id tag and bytes, head tag and pair, stored bytes |
| DumpScript.ReadGraphId | crates/demo-esp32-s3/storage-dump.py:110 | the graph id option reads the written id, or nothing, and the cursor lands after the full slot or after one byte depending on the reader |
| DumpScript.ReadHead | crates/demo-esp32-s3/storage-dump.py:113 | the head option reads the written pair, or nothing, with the same two landing positions |
| DumpScript.HeaderReadsWritten | crates/demo-esp32-s3/storage-dump.py:104-116 | a header with both an id and a head, as the firmware writes it, is read back exactly |
| DumpScript.HeaderMisreadsStored | crates/demo-esp32-s3/storage-dump.py:113-115 | with an id but no head, the stored byte count reads as 0 instead of the written value |
| DumpScript.HeaderMisreadsWithoutId | crates/demo-esp32-s3/storage-dump.py:110-115 | without an id the head is lost and the stored byte count reads as 0 |
| DumpScript.HeaderMisreadExample | crates/demo-esp32-s3/storage-dump.py:113-115 | a concrete header (epoch 1, zero id, no head, 100 stored bytes) reads back with 0 stored bytes |
| DumpScript.FixedHeaderReadsWritten | crates/demo-esp32-s3/storage-dump.py:104-116 | the corrected reader reads back every header the firmware writes |
| DumpScript.Locations | crates/demo-esp32-s3/storage-dump.py:121-124 | each decoded location is its (segment, command) pair, in order |
| DumpScript.Addresses | crates/demo-esp32-s3/storage-dump.py:126-129 | each decoded address is its (id, max cut) pair, in order |
| DumpScript.LeadingAt | crates/demo-esp32-s3/storage-dump.py:146-152 | the leading fields hold at most two priors and at most two parents |
| DumpScript.DataOf | crates/demo-esp32-s3/storage-dump.py:146-162 | decoded segment data carries the leading fields and at most two parents |
| DumpScript.KindCounts | crates/demo-esp32-s3/storage-dump.py:157-162 | the segment is init, basic or merge exactly when it has zero, one or two parents |
| DumpScript.SegmentOf | crates/demo-esp32-s3/storage-dump.py:136-144 | a segment is read only where the record begins with the segment magic and its length word is inside the image, and it keeps its offset |
| DumpScript.SegmentFrom | crates/demo-esp32-s3/storage-dump.py:131-162 | the segment keeps offset, size and data, and its kind follows its parent count |
| DumpScript.SegmentInside | crates/demo-esp32-s3/storage-dump.py:137-138 | a segment that reads lies inside the image |
| DumpScript.SegmentReadsRecord | crates/demo-esp32-s3/storage-dump.py:136-144 | a record the firmware appended reads back with its own size and bytes |
| DumpScript.DecodeData | crates/demo-esp32-s3/storage-dump.py:146-162 | the cursor steps of `decode_data` compute the segment data's specification |
| DumpScript.NewSegment | crates/demo-esp32-s3/storage-dump.py:131-144 | the cursor steps of `Segment.__init__` compute the segment's specification |
| DumpScript.PriorOffsets | crates/demo-esp32-s3/storage-dump.py:192-193 | the offsets walked next are the segment parts of the priors, in order |
| DumpScript.ReachesThrough | crates/demo-esp32-s3/storage-dump.py:185-193 | reachability along prior links is transitive through one edge |
| DumpScript.ClosedHoldsReachable | crates/demo-esp32-s3/storage-dump.py:185-193 | a set of segments closed under prior links holds everything reachable from its members |
| DumpScript.Walker.constructor | crates/demo-esp32-s3/storage-dump.py:179 | the walk starts with no segments visited |
| DumpScript.Walker.WalkSegmentTree | crates/demo-esp32-s3/storage-dump.py:185-193 | each call only adds segments and extends the visit order; everything it adds is reachable from its start; on success the start is recorded and the visited set stays closed under prior links apart from the calls still in progress |
| DumpScript.Visited | crates/demo-esp32-s3/storage-dump.py:188-189 | recording a new segment keeps the visit record consistent and the order growing |
| DumpScript.PriorWalked | crates/demo-esp32-s3/storage-dump.py:192-193 | after walking one more prior, everything added is still reachable from the segment and all earlier priors are recorded |
| DumpScript.Run | crates/demo-esp32-s3/storage-dump.py:179-195 | no walk without a header and a head; otherwise the visited offsets are distinct and are exactly the segments reachable from the head |
| DumpScript.SegmentsOf | crates/demo-esp32-s3/storage-dump.py:136-162 | `Segment(offset)` at every offset of the file; stated by Run |
| DumpScript.LocValues | crates/aranya-embedded-storage-dumper/src/linear.rs:14 | a firmware prior of locations, as the script's values: one pair per part |
| DumpScript.AddrValues | crates/aranya-embedded-storage-dumper/src/linear.rs:15 | a firmware prior of addresses, as the script's values: one address per part |
| DumpScript.LeadOf | crates/aranya-embedded-storage-dumper/src/linear.rs:11-18 | the firmware's leading segment fields, as the script's segment data, with the same parent count |
| DumpScript.VarintAt | crates/demo-esp32-s3/storage-dump.py:69-80 | where postcard's varint decoder reads `x`, the script's LEB128 reader reads `x` and stops at the same place |
| DumpScript.LocationAt | crates/demo-esp32-s3/storage-dump.py:121-124 | where the postcard decoder reads a location, the script reads the same pair and stops at the same place |
| DumpScript.AddressAt | crates/demo-esp32-s3/storage-dump.py:126-129 | where the postcard decoder reads an address, the script reads the same id and max cut and stops at the same place |
| DumpScript.PriorLocationAt | crates/demo-esp32-s3/storage-dump.py:15-25 | where the postcard decoder reads a prior of locations, the script reads its parts and stops at the same place |
| DumpScript.PriorAddressAt | crates/demo-esp32-s3/storage-dump.py:15-25 | where the postcard decoder reads a prior of addresses, the script reads its parts and stops at the same place |
| DumpScript.LeadingAgrees | crates/demo-esp32-s3/storage-dump.py:146-152 | whenever the dumper's postcard decoder reads the leading segment fields, the script reads the same fields |
| DumpScript.LeadingReadsEncoding | crates/demo-esp32-s3/storage-dump.py:146-152 | the script reads back the leading fields of every well-formed serialised segment, stopping just after them |
| DumpScript.SegmentReadsStored | crates/demo-esp32-s3/storage-dump.py:136-162 | a segment the firmware stored reads back with the serialised leading fields, its size, and the kind its parent count gives |
| DumpFormat.Parts | crates/aranya-embedded-storage-dumper/src/linear.rs:14-15 | a prior has as many parts as its tag |
| DumpFormat.Tag | crates/aranya-embedded-storage-dumper/src/linear.rs:14-15 | a prior's variant index is at most two |
| DumpFormat.DecodeLocation | crates/aranya-embedded-storage-dumper/src/linear.rs:14 | a decoded location is well formed and consumes at least one byte |
| DumpFormat.DecodeAddress | crates/aranya-embedded-storage-dumper/src/linear.rs:15 | a decoded address is well formed |
| DumpFormat.DecodePriorLocation | crates/aranya-embedded-storage-dumper/src/linear.rs:14 | every part of a decoded prior of locations is well formed |
| DumpFormat.DecodePriorAddress | crates/aranya-embedded-storage-dumper/src/linear.rs:15 | every part of a decoded prior of addresses is well formed |
| DumpFormat.DecodeSegmentHead | crates/aranya-embedded-storage-dumper/src/linear.rs:11-18 | decoded leading segment fields are well formed |
| DumpFormat.LocationRoundTrip | crates/aranya-embedded-storage-dumper/src/linear.rs:14 | a well-formed location decodes from its encoding, leaving the rest untouched |
| DumpFormat.AddressRoundTrip | crates/aranya-embedded-storage-dumper/src/linear.rs:15 | a well-formed address decodes from its encoding, leaving the rest untouched |
| DumpFormat.PriorLocationRoundTrip | crates/aranya-embedded-storage-dumper/src/linear.rs:14 | every prior of well-formed locations decodes from its encoding |
| DumpFormat.PriorAddressRoundTrip | crates/aranya-embedded-storage-dumper/src/linear.rs:15 | every prior of well-formed addresses decodes from its encoding |
| DumpFormat.SegmentHeadRoundTrip | crates/aranya-embedded-storage-dumper/src/linear.rs:11-18 | well-formed leading segment fields decode from their encoding, whatever follows |
| DumpFormat.BadPriorTag | crates/aranya-embedded-storage-dumper/src/linear.rs:14-15 | a prior whose variant index exceeds two does not decode |
| StorageDumper.Trunc32 | crates/aranya-embedded-storage-dumper/src/main.rs:78 | the `as u32` cast keeps every value that fits in 32 bits |
| StorageDumper.GetHead | crates/aranya-embedded-storage-dumper/src/main.rs:42-49 | a header is returned only from an image beginning with the header magic, and a wrong magic is the bad-magic panic |
| StorageDumper.GetHeadReadsWritten | crates/aranya-embedded-storage-dumper/src/main.rs:42-49 | every header the firmware writes is read back exactly |
| StorageDumper.GetSegment | crates/aranya-embedded-storage-dumper/src/main.rs:51-68 | a segment is returned only where the record begins with the segment magic and its archived length word is inside the image |
| StorageDumper.GetSegmentReadsRecord | crates/aranya-embedded-storage-dumper/src/main.rs:51-68 | a record the firmware appended holding a serialised segment reads back as that segment's leading fields |
| StorageDumper.GetSegmentDecodes | crates/aranya-embedded-storage-dumper/src/main.rs:51-68 | behind a valid magic and length word, the segment is whatever the bytes after them decode to |
| StorageDumper.GetSegmentIgnoresSize | crates/aranya-embedded-storage-dumper/src/main.rs:59-67 | the archived size is checked but not used: two images that differ only in it give the same segment |
| StorageDumper.Targets | crates/aranya-embedded-storage-dumper/src/main.rs:75-87 | one recursion target per prior part |
| StorageDumper.Walk | crates/aranya-embedded-storage-dumper/src/main.rs:70-89 | the collected map holds the start, whose segment decoded; a segment without priors gives just itself; exhausting the stack is an error |
| StorageDumper.GetGraph | crates/aranya-embedded-storage-dumper/src/main.rs:70-89 | the recursive map building returns what the walk specifies |
| StorageDumper.WalkValues | crates/aranya-embedded-storage-dumper/src/main.rs:70-89 | every entry of the collected map is the segment decoded at its key |
| StorageDumper.WalkClosed | crates/aranya-embedded-storage-dumper/src/main.rs:70-89 | the collected map is closed under prior links |
| StorageDumper.WalkReachable | crates/aranya-embedded-storage-dumper/src/main.rs:70-89 | every collected segment is reachable from the start |
| StorageDumper.ReachableWalked | crates/aranya-embedded-storage-dumper/src/main.rs:70-89 | every segment reachable from the start is collected |
| StorageDumper.MakeDot | crates/aranya-embedded-storage-dumper/src/main.rs:101-138 | one cluster per map entry, in strictly ascending offset order |
| StorageDumper.DumpGraph | crates/aranya-embedded-storage-dumper/src/main.rs:144-155 | a bad header or a missing head is the panic; otherwise the clusters are the walked segments, ascending, or the walk's panic |
| StorageDumper.Segments | crates/aranya-embedded-storage-dumper/src/main.rs:51-68 | `get_segment` at every offset of the image; stated by DumpGraph |

## Left out

- Hardware and drivers: the radio, the RMT peripheral's transmission, GPIO, the USB descriptors, the SD card and FAT driver, watchdog, heap and RNG setup, and the board entry points (`main.rs`, the LED animation and button tasks). The model starts where these hand bytes, frames or events to the code above.
- Concurrency: embassy mutexes, channels, executors, the `poll_once` drain and pub/sub publication (including `PubSubSink` dropping an effect when the channel is full). Every engine is a single-threaded step with `now` as an input.
- Endless loops: `Application::run`, the serial `io_loop`, the syncers' `process`/`serve` loops and the demo `initiate` rounds are modelled as one event, one byte or one round. Their repetition is the caller's.
- Async sleeps and timers: `Timer::after` in the send path and the syncers are not modelled. The ESP-NOW delay is the value `random_delay` computes, and the clock is the tick count it is given.
- Opaque collaborators: the Aranya runtime's requester, responder, peer cache, transaction, client state and policy VM are stood in by their answers, which are inputs of each step. RaptorQ (RFC 6330), SHA-256 (FIPS 180-4) and SipHash are function parameters.
- postcard and rkyv: their encodings are concrete stand-ins that fix the byte layout for the shapes the firmware stores, with round-trip lemmas. The rkyv stand-in lays fields out in declaration order, each naturally aligned, and writes an `Option` as a tag byte followed by its payload's full width. It is not claimed to be rkyv's exact archive layout.
- Segment contents: a command-graph segment is kept as its serialised bytes wherever the stores only store it. The dumpers decode only its leading fields (offset, prior, parents, policy, facts).
- Floating point: `RgbU8 * f32` scaling and the demo LED's intensity decay.
- The partition table: `find_data_partition` and its MD5 check are not part of this model. The data partition's base and size are inputs of `FlashStore.PartitionManager`.
- `EspPartitionIoManager::remove` in the demo store is `unimplemented!()` in the code and is left out.
- The parameter store's `AbstractIo` adapters are left out. The block lives on a byte sequence that the store reads and rewrites.
- `sync`/`flush`, file open and close, and volume handling in the SD-card stores are left out. A file is its bytes and its cursor.
- `Application`: the heapless single-producer queue's capacity is a constructor parameter (`capacity`), since the usable capacity of `Queue<_, 100>` depends on the heapless version. The serial `SetAmbientColor` command is a TODO in the code: it is answered and changes nothing else, in the model as in the code.
- Console text: what the configuration tool and the dump script print is not modelled beyond whether the tool prints. The dump script's DOT output and its `hexstr` helper are left out, as are the Rust dumper's per-command labels and file writing.
- `Root::validate` is modelled as written (in `LinearStore.OpenRoot`). A checksum mismatch is only printed, so every loadable root is accepted. `Validated`, `OpenRootChecked` and `CheckedOpenIsSound` state the checking variant beside it, and `TornRootRejected` shows what it would catch.
- DumpScript.AlignUp: the result is stated to be a multiple of the alignment only for an alignment of 4, the only one the script uses.
- DumpScript.CommandAt: the update list of a command decodes only when it is empty. For any other length the script calls an undefined `get_string` and stops, so the entries themselves are not modelled.
- DumpScript.Walker.WalkSegmentTree: Python's recursion limit is not modelled. The walk terminates because each call records a segment not seen before.
- StorageDumper.Walk: the Rust stack is a `fuel` bound (`StackExhausted` when it runs out). No bound on the fuel that a cycle-free image needs is proved.
- StorageDumper.GetSegment: decodes the leading segment fields only. A segment whose later fields (commands, max cut, skip list) would not deserialise is not rejected.
- Serial.Latin1 and Serial.AsText: text is one byte per character. The firmware writes Rust strings as UTF-8 (the `write!` of author and text into the response at crates/chat-app/src/application/serial.rs:223-231, and `name.as_bytes()` at 261), so a character above U+007F is encoded differently. Text assembled from serial input is ASCII either way, since `valid_text_char` admits only bytes below 0x7F.
- Util.SliceCursor.Next: requires the `n` bytes to be there. The source's `assert!` panics otherwise (src/util.rs:32), and that panic is not modelled, so each caller must establish the length.
- GraphStore.Search: modelled as a linear search for the first entry equal to the value. On an unsorted slice `binary_search` may return any match; on the strictly increasing index the store keeps the two agree.
- ParamStore.ParameterStore.Store: the `Size` errors of `store` (crates/parameter-store/src/parameter_store.rs:43-58) are left out, because they cannot arise: a serialised `Parameters` is at most 88 bytes (`ParamStore.Serialize`), and 88 + 8 fits the 1024-byte block.
- LinearStore.Writer, LinearStore.Reader and LinearStore.FileManager: they run on the corrected `dump` and `load` that the "## Findings" table names (`LinearStore.FileHandle.Dump`, `LinearStore.Load`), not on the code as written. As written, `write_all` never returns for a non-empty buffer and `read_exact` reads from the file cursor rather than the offset (`LinearStore.WriteAllAsWritten`, `LinearStore.ReadExactAsWritten`), so the program's `write_root` does not return and never reaches the state in which both root copies are written that `Writer.WriteRoot` and `OpenAfterWriteRoot` describe.
- LinearStore.Writer.WriteRoot, LinearStore.Writer.Append and TcpFormat.WritePrefix: three source panics are preconditions instead of modelled paths. They are `generation.checked_add(1).unwrap()` (src/aranya/linear_store/imp.rs:157, as `root.generation < U64_MAX`), `offset.try_into().unwrap()` (imp.rs:192, as `root.freeOffset <= USIZE_MAX`) and the index panic of `write_prefix` on a buffer shorter than three bytes (src/tcp/format.rs:18-22, as `buffer.Length >= PREFIX_LEN`). None can happen in practice: the generation grows by one per root write, the free offset is a file offset, and every caller passes a full message buffer.
- FlashStore.Updated and OldFlashStore.Updated: the unchecked `stored_bytes +=` of both `append`s is modelled as an edit that fails when the sum leaves `u32`. That path is unreachable (see their rows), so the model does not say what a wrapped sum would do.
- ChatSyncer.SendHelloStep and ChatSyncer.Engine.SendHello: the two `expect`s of `send_hello` are not modelled (crates/chat-app/src/aranya/syncer.rs:210 and 215). The first panics when the head's segment has no command at the head's location, the second when that command has no max cut. Storage errors of `get_storage`, `get_head` and `get_segment` are modelled, as the `Err` of `HelloAnswers.head`. The head is a command this device has stored, so both lookups hold in practice.
- SyncCommon.AddCommands, SyncCommon.AddCommandsSpec, ChatSyncer.ProcessResponseStep and DemoSyncer.ProcessResponseStep: the `max_cut().unwrap()` of `dump_commands` (crates/chat-app/src/aranya/syncer.rs:406, crates/demo-esp32-s3/src/aranya/daemon.rs:158) is not modelled. It runs before the commands are added and panics on a received command without a max cut. Received sync commands carry one, so the model goes straight to the add. The storage errors after a successful add are modelled: `Lookup.open` is `get_storage`, and an address in `Lookup.failing` is one whose `get_location` or `peer_cache.add_command` fails. The model does not tell those two apart, since both return the same `StorageError` and both stop the walk.
- EspNow.Interface.Send: requires every RaptorQ packet to be at most `MAX_CONTENTS` (68) bytes. It stands for the panic of `enc_packet.into_iter().collect()` into a `heapless::Vec<u8, 68>` (crates/chat-app/src/net/espnow.rs:375), which is not modelled. The panic cannot happen: the encoder runs with a 64-byte symbol size, and a serialised packet is a 4-byte payload id followed by one symbol.
- StorageDumper.MakeDot: states the cluster order only. The `postcard::from_bytes::<VmProtocolData>` of each command, whose failure ends `make_dot` with an error, is not modelled.

## Findings

Outside the LinearStore classes, the methods that model a source file keep its behaviour as written, and the corrected definitions stand beside them with the intended property proved about each. The exception is `LinearStore.Writer`, `LinearStore.Reader` and `LinearStore.FileManager`: they run on the corrected `dump` and `load` of the first two rows below (see "## Left out").

| source | as written | input that shows it | evidently intended | confidence | as-written member | corrected member |
|---|---|---|---|---|---|---|
| src/aranya/linear_store/imp.rs:275-297 | `read_exact` counts `offset` up but reads from the file's cursor, which it never moves to `offset` | a file holding only a root at `ROOT_A`, read through a fresh cursor: the length comes from the four zero bytes at the start of the file, not from the root | read `buf.len()` bytes starting at `offset` | not executed | LinearStore.ReadExactAsWritten, LinearStore.CursorMissesRoot | LinearStore.Load, LinearStore.LoadDumped |
| src/aranya/linear_store/imp.rs:299-313 | `write_all` writes the whole buffer each round and never shortens `buf`, so the loop does not end | any non-empty buffer | write the buffer once at `offset`, then return | not executed | LinearStore.WriteAllAsWritten | LinearStore.FileHandle.Dump |
| src/storage/internal.rs:65-100 | `write_header` writes the archived header without the magic that `fetch_header` checks for at the same offset | any header whose epoch does not spell the magic, e.g. the initial header with epoch 0: its read-back is `BadHeader`, so every `update_header` fails | write the magic in front of the archived header | not executed | OldFlashStore.WrittenHeaderIsBad, OldFlashStore.UpdateNeverVerifies, OldFlashStore.InitializedStillBad | FlashStore.FetchWrittenHeader |
| src/storage/internal.rs:138-259 | `append` writes the bare item at `base + DATA_OFFSET + stored_bytes`; `fetch` looks for a magic and a size at `base + offset` and reads the data from `base + offset + 4` | an item appended at offset 0 to blank flash: `fetch(0)` reads the header sector and fails | a framed record written and read at `base + DATA_OFFSET + offset` | not executed | OldFlashStore.AppendedNotFetched, OldFlashStore.FetchStartsAtSize | FlashStore.FetchWrittenRecord, FlashStore.AppendStoresRecord |
| src/storage/internal.rs:261-271 | `commit` converts `head.segment` twice and records `(segment, segment)` | `commit(Location(1, 2))` records `(1, 1)` | record `(segment, command)` | not executed | OldFlashStore.CommitDropsCommand | FlashStore.Updated, FlashStore.Writer.Commit |
| src/aranya/graph_store.rs:81-119 | `head` reads the head file from its cursor, which the last `commit` left at the end of the file | commit any head on new files, then call `head`: it returns `Location(0, 0)` | read the head file from its start | not executed | GraphStore.CommitThenHead | GraphStore.CommittedHeadRead |
| src/aranya/graph_store.rs:157-193 | `append` reads the location index from the cursor left at the end by the previous write, finds it empty and rewrites it with the new item alone | two non-empty appends of items `a` and `b`: the index holds only the length of `b`, not the ends of both items | read the whole index, then write it back with the new end added | not executed | GraphStore.AppendTwice | GraphStore.EndsGrow, GraphStore.WrittenIndexRead |
| src/aranya/graph_store.rs:309-385 | `fetch` reads the location index from the cursor at the end of the file, finds no entry and panics | one non-empty append, then `fetch(0)` on a reader of the same files | read the index from its start and return the stored item | not executed | GraphStore.AppendThenFetch | GraphStore.FetchAt, GraphStore.FetchStored |
| crates/aranya-embedded-config/src/main.rs:53-70 | `--color` sets the colour but does not set `modified`, so on its own it is never stored | `--color 1,2,3` alone, with a different colour stored | every option that edits the parameters marks them modified | not executed | ConfigCli.ColorOnlyIsLost | ConfigCli.EditsCorrected, ConfigCli.CorrectedStoresEveryEdit |
| crates/demo-esp32-s3/storage-dump.py:63-67, 110-115 | `get_option` consumes one flag byte for an absent option, while the archived header keeps the option's full width | a header with a graph id, no head and 100 stored bytes reads back with 0 stored bytes | skip the absent option's payload width | not executed | DumpScript.HeaderMisreadsStored, DumpScript.HeaderMisreadsWithoutId, DumpScript.HeaderMisreadExample | DumpScript.FixedHeaderOf, DumpScript.FixedHeaderReadsWritten |

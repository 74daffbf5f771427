# XMODEM, StackVec and the kernel shell in Dafny

This project models three pieces of a small Raspberry Pi kernel code base and
proves what each one promises:

- **The XMODEM engine** (`lib/xmodem/src/lib.rs`). This is the original
  XMODEM protocol: 128-byte packets, an 8-bit additive checksum, and ten
  attempts per packet.
  - `xmodem_spec.dfy` gives its reference semantics. A session is a value
    `State` (packet number, `started`, the bytes the peer has still to send,
    the bytes written so far, and the progress reports). Every operation is a
    function from a `State` to a `Step` (the operation's `io::Result` and the
    state after it).
  - `xmodem.dfy` is the engine as imperative code. A class `Xmodem` has the
    fields `packet` and `started` and reads from and writes to a `Channel`
    object. A `Source` and a `Sink` are the data source and the sink. Each
    method is proved equal to its reference function.
  - `xmodem_properties.dfy` proves the packet-level and retry behaviour,
    error kind by error kind.
  - `xmodem_transfer.dfy` proves the whole-transfer results. Any data sent
    into a receiver that acknowledges everything is accepted and counted
    exactly. The frames the sender writes, once received, put the data and
    its zero padding into the sink.
- **`StackVec`** (`stack-vec/src/lib.rs`), in `stack_vec.dfy`. It is a
  fixed-capacity vector over a caller-supplied array, modelled as a class with
  a `storage` array and a `len` field.
- **The shell's command line** (`kern/src/shell.rs`), in `shell.dfy`. This
  covers `Command::parse` into a `StackVec`, `Command::path`, the byte-wise
  line editor (backspace, the 512-byte limit, the bell), and the choice between
  `echo`, `welcome`, an unknown command and the two parse errors.

`common.dfy` holds the shared `byte`, `Option` and `Result` types.

What the session writes to the peer is the channel's `written` log. What the
peer sends is a fixed script of bytes with a read cursor. Progress reports are
a log of the packet numbers handed to the callback.

Where the code and its description differ, the model follows the code:

- `read_packet` reads `buf.len()` payload bytes, not a fixed 128. The two agree for the 128-byte buffer the drivers pass.
- The sender reads the response to a data packet with `read_byte(true)`. A CAN there gives `ConnectionAborted`, not the `InvalidData` of any other unexpected byte.
- The second EOT is expected with `expect_byte`, so a wrong byte there writes CAN as well as NAK.

## Model

| member | source | states |
|---|---|---|
| XmodemSpec.NextPacket | lib/xmodem/src/lib.rs:248 | `wrapping_add(1)` on the packet number: 255 is followed by 0, every other number by its successor |
| XmodemSpec.ChecksumFrom | lib/xmodem/src/lib.rs:137 | the wrapping fold from an accumulator is the accumulator plus the plain sum of the bytes, modulo 256 |
| XmodemSpec.Checksum | lib/xmodem/src/lib.rs:136-138 | the checksum is the sum of all bytes modulo 256 |
| XmodemSpec.Pad | lib/xmodem/src/lib.rs:64-66 | a chunk of at most 128 bytes is extended to exactly 128 bytes: the chunk is kept in front and every byte after it is zero |
| XmodemSpec.StepReadPacket | lib/xmodem/src/lib.rs:207-251 | `read_packet` keeps the buffer's length; it succeeds only with 0 (end of transmission) or 128; it never adds input; a packet, or an `Interrupted` failure, consumes at least one byte |
| XmodemSpec.StepReadPacketBody | lib/xmodem/src/lib.rs:231-250 | the packet part after SOH keeps the buffer's length, succeeds only with 128, and consumes input unless it fails with `UnexpectedEof`; a CAN in place of the number or complement aborts unless CAN is the byte expected there |
| XmodemSpec.StepReadPacketBodyAsWritten | lib/xmodem/src/lib.rs:232-233 | as written, the packet part succeeds only when neither the expected number nor its complement is CAN |
| XmodemSpec.StepReadPayload | lib/xmodem/src/lib.rs:239-250 | the payload, checksum and ACK/NAK phase keeps the buffer's length, succeeds only with 128, and consumes input unless it fails with `UnexpectedEof` |
| XmodemSpec.RetrySend | lib/xmodem/src/lib.rs:80-91 | the sender's attempts never end in `Interrupted`: the last one turns into `BrokenPipe` |
| XmodemSpec.RetryReceive | lib/xmodem/src/lib.rs:117-129 | the receiver's attempts never end in `Interrupted`; the result is 0 or 128; a packet consumes input |
| XmodemSpec.TransmitFromData | lib/xmodem/src/lib.rs:63-89 | after a chunk of `n` bytes is acknowledged, the send goes on with the rest of the data and `written + n` |
| Xmodem.Channel.constructor | lib/xmodem/src/lib.rs:23-28 | a fresh channel: all of the peer's bytes pending, nothing written |
| Xmodem.Channel.ReadExact | lib/xmodem/src/lib.rs:165 | `read_exact` of `n` bytes gives the next `n` pending bytes and consumes them, or `UnexpectedEof` and consumes nothing when fewer are pending |
| Xmodem.Channel.WriteAll | lib/xmodem/src/lib.rs:175 | `write_all` appends the bytes to the written log |
| Xmodem.Source.constructor | lib/xmodem/src/lib.rs:46 | a data source holding `data` |
| Xmodem.Source.ReadMax | lib/xmodem/src/lib.rs:64 | `read_max` fills the front of the buffer with min(buffer length, remaining) bytes of the source, leaves the rest of the buffer alone, and consumes exactly those bytes |
| Xmodem.Sink.constructor | lib/xmodem/src/lib.rs:106 | an empty sink |
| Xmodem.Sink.WriteAll | lib/xmodem/src/lib.rs:124 | `into.write_all` appends the bytes to the sink |
| Xmodem.Xmodem.constructor | lib/xmodem/src/lib.rs:142-159 | `new` and `new_with_progress`: packet 1, not started, no progress reported |
| Xmodem.Xmodem.ReadByte | lib/xmodem/src/lib.rs:163-171 | `read_byte` is exactly `StepReadByte` over the session |
| Xmodem.Xmodem.WriteByte | lib/xmodem/src/lib.rs:174-176 | `write_byte` appends one byte to the written log and changes nothing else |
| Xmodem.Xmodem.ExpectByteOrCancel | lib/xmodem/src/lib.rs:179-190 | `expect_byte_or_cancel` is exactly `StepExpectByteOrCancel` |
| Xmodem.Xmodem.ExpectByte | lib/xmodem/src/lib.rs:194-201 | `expect_byte` is exactly `StepExpectByte` |
| Xmodem.Xmodem.CloseSender | lib/xmodem/src/lib.rs:266-269 | the EOT, NAK, EOT, ACK exchange is exactly `StepCloseSender` |
| Xmodem.Xmodem.ReadPacket | lib/xmodem/src/lib.rs:207-251 | `read_packet` changes the session and the buffer exactly as `StepReadPacket` says |
| Xmodem.Xmodem.ReceiveEot | lib/xmodem/src/lib.rs:214-220 | the receiver's end-of-transmission answer is exactly `StepReceiveEot` |
| Xmodem.Xmodem.RejectHeader | lib/xmodem/src/lib.rs:222-230 | a header other than SOH and EOT is handled exactly as `StepBadHeader` says |
| Xmodem.Xmodem.ReadPacketBody | lib/xmodem/src/lib.rs:231-250 | the packet after SOH is read exactly as `StepReadPacketBody` says, with the CAN abort off only for a number or complement that is CAN |
| Xmodem.Xmodem.ReadPayload | lib/xmodem/src/lib.rs:239-250 | the payload is copied into the buffer and checked exactly as `StepReadPayload` says |
| Xmodem.Xmodem.WritePacket | lib/xmodem/src/lib.rs:257-292 | `write_packet` is exactly `StepWritePacket` |
| Xmodem.Xmodem.WriteEot | lib/xmodem/src/lib.rs:258-270 | `write_packet(&[])` is exactly `StepWriteEot` |
| Xmodem.Xmodem.WriteData | lib/xmodem/src/lib.rs:273-290 | `write_packet` with data is exactly `StepWriteData` |
| Xmodem.Xmodem.SendFrame | lib/xmodem/src/lib.rs:273-278 | the data frame's writes append exactly `Frame(packet, buf)` to the written log |
| Xmodem.Xmodem.SendWithRetry | lib/xmodem/src/lib.rs:80-91 | the sender's ten-attempt loop is exactly `RetrySend` from attempt 0 |
| Xmodem.Xmodem.ReceiveWithRetry | lib/xmodem/src/lib.rs:117-129 | the receiver's ten-attempt loop is exactly `RetryReceive` from attempt 0 |
| Xmodem.Xmodem.ReceivePackets | lib/xmodem/src/lib.rs:114-131 | the receiver's `'next_packet` loop gives the result, final session and delivered bytes of `ReceiveFrom` |
| Xmodem.Xmodem.SendPackets | lib/xmodem/src/lib.rs:61-92 | the sender's `'next_packet` loop is exactly `TransmitFrom` over the source's data |
| Xmodem.Xmodem.SendNext | lib/xmodem/src/lib.rs:63-89 | one turn of the sender's loop either finishes as `TransmitFrom` does, or leaves a state with the same `TransmitFrom` outcome and strictly less data |
| Xmodem.TransmitWithProgress | lib/xmodem/src/lib.rs:46-93 | `transmit_with_progress` gives the result, channel contents and progress reports of `RunTransmit` |
| Xmodem.FillPacket | lib/xmodem/src/lib.rs:64-66 | the packet buffer becomes the next min(128, remaining) bytes of the source, zero-padded to 128, and exactly those bytes are consumed |
| Xmodem.ReceiveWithProgress | lib/xmodem/src/lib.rs:106-132 | `receive_with_progress` gives the result, channel contents and progress reports of `RunReceive`, and the sink grows by exactly the delivered bytes |
| XmodemProperties.ChecksumAppend | lib/xmodem/src/lib.rs:136-138 | the checksum of a concatenation is the wrapping sum of the two checksums |
| XmodemProperties.ChecksumOfPad | lib/xmodem/src/lib.rs:64-66 | zero padding does not change the checksum |
| XmodemProperties.ChecksumDetectsByteChange | lib/xmodem/src/lib.rs:240-242 | changing any one byte of a buffer changes its checksum |
| XmodemProperties.ReadByteCases | lib/xmodem/src/lib.rs:163-171 | `read_byte` consumes exactly one byte; with `abort_on_can` a CAN gives `ConnectionAborted`, otherwise the byte is returned |
| XmodemProperties.ExpectByteCases | lib/xmodem/src/lib.rs:194-201 | `expect_byte`: a match consumes the byte and writes nothing; a CAN, when CAN was not expected, aborts without writing; any other mismatch writes CAN and gives `InvalidData` |
| XmodemProperties.ExpectByteOrCancelCases | lib/xmodem/src/lib.rs:179-190 | `expect_byte_or_cancel`: a mismatch always writes CAN, giving `ConnectionAborted` for a CAN and `InvalidData` otherwise |
| XmodemProperties.ReadOnEmptyInput | lib/xmodem/src/lib.rs:163-201 | with nothing left to read, every reading primitive fails with `UnexpectedEof` and changes nothing |
| XmodemProperties.FrameLayout | lib/xmodem/src/lib.rs:273-278 | a data frame is SOH, the number, 255 minus the number, the payload, and then the payload's checksum, in that order |
| XmodemProperties.WritePacketOutcome | lib/xmodem/src/lib.rs:273-290 | after the frame, an ACK gives `Ok(buf.len())` and advances the packet number, wrapping, and reports it; NAK gives `Interrupted`, CAN gives `ConnectionAborted` and anything else gives `InvalidData`, all three with packet number and progress unchanged |
| XmodemProperties.WritePacketNoResponse | lib/xmodem/src/lib.rs:278-281 | with no response the frame is written and `UnexpectedEof` results |
| XmodemProperties.WritePacketEndOfTransmission | lib/xmodem/src/lib.rs:266-270 | on a started session, `write_packet(&[])` writes EOT twice, consumes NAK and ACK, and returns 0 |
| XmodemProperties.WritePacketEndBeforeStart | lib/xmodem/src/lib.rs:258-270 | before the start, `write_packet(&[])` first consumes the initial NAK and marks the session started |
| XmodemProperties.ReadPacketShortBuffer | lib/xmodem/src/lib.rs:209-211 | a buffer under 128 bytes gives `UnexpectedEof` with no byte read or written |
| XmodemProperties.ReadPacketEot | lib/xmodem/src/lib.rs:213-220 | EOT, EOT is answered with NAK and ACK and gives 0 |
| XmodemProperties.ReadPacketEotMismatch | lib/xmodem/src/lib.rs:216-217 | EOT followed by a byte other than EOT or CAN writes NAK then CAN and gives `InvalidData` |
| XmodemProperties.ReadPacketBadHeader | lib/xmodem/src/lib.rs:222-230 | a header other than SOH, EOT and CAN consumes one more byte and writes CAN; the error is `ConnectionAborted` when that byte is CAN and `InvalidData` otherwise |
| XmodemProperties.ReadPacketBadNumber | lib/xmodem/src/lib.rs:232-237 | a wrong number or complement that is not an unexpected CAN writes CAN, gives `InvalidData` and leaves the packet number |
| XmodemProperties.ReadPacketCancelInHeader | lib/xmodem/src/lib.rs:232-233 | a CAN in place of a number or complement that is not CAN gives `ConnectionAborted` as soon as it is read, with nothing written |
| XmodemProperties.ReadPacketAcceptsFrame | lib/xmodem/src/lib.rs:231-250 | the frame the sender writes for the expected number is accepted: the payload lands in the buffer, ACK is written, the number advances and is reported, and 128 is returned |
| XmodemProperties.ReadPacketChecksumMismatch | lib/xmodem/src/lib.rs:239-245 | a wrong checksum byte writes NAK, gives `Interrupted` and leaves the packet number |
| XmodemProperties.ReadPacketDetectsCorruption | lib/xmodem/src/lib.rs:239-245 | a frame with any one payload byte changed in transit is answered with NAK and `Interrupted` |
| XmodemProperties.AsWrittenAbortsPacket24 | lib/xmodem/src/lib.rs:232-233 | as written, packet number 24, which is CAN, aborts with `ConnectionAborted` after its number byte, although the corrected reading accepts the same frame |
| XmodemProperties.AsWrittenAbortsPacket231 | lib/xmodem/src/lib.rs:232-233 | as written, packet number 231, whose complement is CAN, aborts with `ConnectionAborted` after its complement byte, although the corrected reading accepts the same frame |
| XmodemProperties.RetrySendNak | lib/xmodem/src/lib.rs:80-82 | a NAK makes the sender write the same frame again and spend one attempt |
| XmodemProperties.NaksExhaustAttempts | lib/xmodem/src/lib.rs:80-91 | a NAK for each of the `k` attempts left writes the frame `k` times and ends in `BrokenPipe` |
| XmodemProperties.NaksThenAck | lib/xmodem/src/lib.rs:80-87 | `k` NAKs and then an ACK within the attempts left write the frame `k + 1` times and succeed |
| XmodemProperties.SendGivesUpAfterTenNaks | lib/xmodem/src/lib.rs:80-91 | ten NAKs: the frame is written ten times and the packet fails with `BrokenPipe` |
| XmodemProperties.TransmitGivesUpAfterTenNaks | lib/xmodem/src/lib.rs:64-91 | a send whose first packet gets ten NAKs fails with `BrokenPipe` after writing that padded frame ten times |
| XmodemProperties.SendRetriesUntilAck | lib/xmodem/src/lib.rs:80-87 | fewer than ten NAKs and then an ACK: the same frame is written once per response and the packet goes through |
| XmodemProperties.RetrySendAck | lib/xmodem/src/lib.rs:84-86 | an ACK ends the attempts with success and the number advanced |
| XmodemProperties.RetrySendStopsUnlessNak | lib/xmodem/src/lib.rs:81-83 | any response other than NAK ends the attempts with that `write_packet`'s outcome; a CAN gives `ConnectionAborted` |
| XmodemProperties.RetryReceiveBadFrame | lib/xmodem/src/lib.rs:117-119 | a frame with a wrong checksum costs the receiver one NAK and one attempt |
| XmodemProperties.ReceiveRecoversAfterBadFrame | lib/xmodem/src/lib.rs:117-125 | an intact frame after a corrupted one is accepted on the second attempt, after one NAK |
| XmodemProperties.ReceiveGivesUp | lib/xmodem/src/lib.rs:129 | with all attempts spent the receiver gives `BrokenPipe` without reading |
| XmodemProperties.ReceiveRejectsAll | lib/xmodem/src/lib.rs:117-129 | a bad-checksum frame for each attempt left: one NAK each, then `BrokenPipe` |
| XmodemProperties.ReceiveGivesUpAfterTenBadFrames | lib/xmodem/src/lib.rs:116-129 | ten bad-checksum frames in a row: `BrokenPipe`, nothing delivered to the sink, and exactly ten bytes written after the old output, every one of them NAK |
| XmodemProperties.RetryReceiveStep | lib/xmodem/src/lib.rs:118-119 | any `read_packet` failure with `Interrupted` costs the receiver one attempt and nothing else |
| XmodemProperties.TransmitFromCount | lib/xmodem/src/lib.rs:63-92 | a successful send reports exactly the data bytes plus what was written before, padding excluded |
| XmodemProperties.RunTransmitCount | lib/xmodem/src/lib.rs:46-93 | `transmit_with_progress` either fails or returns the length of the data |
| XmodemProperties.RunTransmitHandshake | lib/xmodem/src/lib.rs:54-58 | no first byte gives `UnexpectedEof`, CAN gives `ConnectionAborted`, any byte other than NAK gives `InvalidData`, and NAK starts the send |
| XmodemProperties.ReceiveFromAccepted | lib/xmodem/src/lib.rs:122-125 | an accepted packet adds 128 to the count and appends the payload to the sink, then the loop goes on |
| XmodemProperties.ReceiveFromCount | lib/xmodem/src/lib.rs:116-131 | the receive loop appends whole packets to the sink and, on success, returns exactly the number of bytes it appended |
| XmodemProperties.RunReceiveCount | lib/xmodem/src/lib.rs:106-132 | `receive_with_progress` delivers a multiple of 128 bytes and, on success, returns exactly their number |
| XmodemTransfer.Chunks | lib/xmodem/src/lib.rs:64-66 | the payloads a send carries are all 128 bytes long |
| XmodemTransfer.Advance | lib/xmodem/src/lib.rs:248 | `k` wrapping increments move a packet number to `(p + k) % 256` |
| XmodemTransfer.Numbers | lib/xmodem/src/lib.rs:289 | one progress report per packet |
| XmodemTransfer.ChunksHoldData | lib/xmodem/src/lib.rs:30-35 | the payloads hold the data followed by fewer than 128 zeros, a whole number of packets |
| XmodemTransfer.TransmitFromEnd | lib/xmodem/src/lib.rs:68-77 | with the data exhausted, the sender writes EOT, EOT, consumes NAK, ACK and returns the count so far |
| XmodemTransfer.TransmitAcked | lib/xmodem/src/lib.rs:63-92 | a receiver that acknowledges every packet and the EOT exchange gets every frame once; the send returns the data's length |
| XmodemTransfer.RetryReceiveFrame | lib/xmodem/src/lib.rs:117-125 | an intact frame ends the receiver's attempts at once, accepted |
| XmodemTransfer.ReceiveFromEnd | lib/xmodem/src/lib.rs:121-131 | EOT, EOT ends the receive with NAK, ACK and the count so far |
| XmodemTransfer.ReceiveWire | lib/xmodem/src/lib.rs:116-131 | a sequence of intact frames numbered on from the expected number, then EOT, EOT: every payload is acknowledged and appended in order, and their total length is returned |
| XmodemTransfer.SendToReceiver | lib/xmodem/src/lib.rs:46-93 | against a receiver that sends NAK, an ACK per packet, then NAK, ACK, the sender succeeds with the data's length and writes the frames numbered from 1, then EOT, EOT |
| XmodemTransfer.ReceiveFromSender | lib/xmodem/src/lib.rs:106-132 | fed the sender's frames and EOT, EOT, the receiver succeeds; the sink holds the data followed by fewer than 128 zeros; the count equals the sink's length; the receiver's replies are NAK, one ACK per packet, then NAK, ACK |
| StackVec.StackVec.New | stack-vec/src/lib.rs:25-27 | empty over the given storage, with capacity the storage's length |
| StackVec.StackVec.WithLen | stack-vec/src/lib.rs:37-45 | the first `len` storage slots are the contents; `len` above the storage length is refused |
| StackVec.StackVec.Capacity | stack-vec/src/lib.rs:48-50 | the capacity is the storage's length |
| StackVec.StackVec.AsSlice | stack-vec/src/lib.rs:70-77 | `as_slice` and `into_slice` are the first `len` storage slots |
| StackVec.StackVec.Len | stack-vec/src/lib.rs:85-87 | the length is that of the slice and never above the capacity |
| StackVec.StackVec.IsEmpty | stack-vec/src/lib.rs:90-92 | empty exactly when the slice is empty |
| StackVec.StackVec.IsFull | stack-vec/src/lib.rs:95-97 | full exactly when the length equals the capacity |
| StackVec.StackVec.Index | stack-vec/src/lib.rs:158-160 | indexing below the length gives that element of the slice |
| StackVec.StackVec.Push | stack-vec/src/lib.rs:104-112 | on a full vector `Err` and nothing changes; otherwise `Ok`, the value stored at the old length, the length one more and every other slot unchanged |
| StackVec.StackVec.Pop | stack-vec/src/lib.rs:128-135 | on an empty vector `None`; otherwise the last element, with the length one less |
| StackVec.StackVec.Truncate | stack-vec/src/lib.rs:55-64 | the length becomes `n` when `n` is smaller and stays otherwise; the contents are the old contents' prefix |
| StackVec.PushThenPop | stack-vec/src/lib.rs:104-135 | push on a vector that is not full, then pop, gives back the pushed value and the old contents and length |
| StackVec.PushOnFull | stack-vec/src/lib.rs:104-107 | a full vector refuses a push and keeps its contents |
| Shell.Split | kern/src/shell.rs:45 | `split(' ')` yields at least one piece, and no piece holds a space |
| Shell.JoinSplit | kern/src/shell.rs:45 | joining the pieces with single spaces gives back the line |
| Shell.SplitJoin | kern/src/shell.rs:45 | splitting the space-joined pieces gives back the pieces |
| Shell.ConcatNonEmpty | kern/src/shell.rs:45 | dropping the empty pieces keeps every character |
| Shell.ConcatSplit | kern/src/shell.rs:45 | the pieces hold exactly the line's characters other than spaces, in order |
| Shell.NonEmptyPieces | kern/src/shell.rs:45 | the kept pieces are non-empty pieces of the split, and no more of them |
| Shell.TokensAreWords | kern/src/shell.rs:45 | every argument is non-empty and space-free, and together they are the line without its spaces |
| Shell.RemoveSpacesEmpty | kern/src/shell.rs:45 | nothing is left without spaces exactly when the line is all spaces |
| Shell.NoTokens | kern/src/shell.rs:45-51 | a line has no arguments exactly when it is all spaces |
| Shell.Parse | kern/src/shell.rs:43-54 | `TooManyArgs` exactly when there are more arguments than the buffer holds; `Empty` exactly when there are none; otherwise a vector over the buffer holding exactly the arguments in order |
| Shell.Path | kern/src/shell.rs:57-59 | the path is the first argument |
| Shell.Consumed | kern/src/shell.rs:77-79 | the editor reads up to and including the first CR or LF, or all of the input when there is none |
| Shell.BackspaceUndoesAdd | kern/src/shell.rs:80-99 | below 512 bytes, a stored byte followed by backspace or delete leaves the line as it was |
| Shell.EditIgnores | kern/src/shell.rs:89-102 | a non-ASCII byte, or any byte once the line holds 512 bytes, leaves the line unchanged |
| Shell.EditAllKeepsLine | kern/src/shell.rs:77-104 | the line never exceeds 512 bytes and holds only ASCII bytes other than CR, LF, backspace and delete |
| Shell.EditAllStopsAtEnd | kern/src/shell.rs:79 | what follows the line's CR or LF does not affect the line |
| Shell.EditByte | kern/src/shell.rs:80-102 | one byte edits the `StackVec` line as `Edit` says, and `idx` stays equal to the line's length |
| Shell.ReadLine | kern/src/shell.rs:72-104 | the byte loop produces `EditAll` of its input and reads exactly `Consumed` bytes |
| Shell.Decode | kern/src/shell.rs:106 | `from_utf8` on ASCII maps each byte to the character with that code |
| Shell.RunLine | kern/src/shell.rs:106-129 | the dispatch on an ASCII line is `Respond` |
| Shell.HandleInput | kern/src/shell.rs:72-129 | one turn of the shell's loop: the reply is `Respond` of the edited line, and exactly `Consumed` input bytes are read; the edited line is always ASCII, so it always decodes |
| Shell.EchoDropsCommand | kern/src/shell.rs:110-113 | `echo` replies with the arguments after the command word |
| Shell.BlankLineFails | kern/src/shell.rs:107-124 | a non-empty line of spaces is a parse failure |
| Shell.TooManyWordsRefused | kern/src/shell.rs:120-122 | more than 64 arguments are refused with "too many arguments" |

## Left out

- Write errors. Every `write_byte`, `write_all` and `into.write_all` succeeds in this model, so no path where a write fails is covered.
- `flush` (lib.rs lines 296-298) only forwards to the channel, so it is not part of this model.
- `transmit` and `receive` are the progress variants with a no-op callback. They are covered by `TransmitWithProgress` and `ReceiveWithProgress`.
- The progress callback is modelled as a log of the packet numbers reported. Its real code, and `read_ext::read_max`, are not part of this model. `Xmodem.Source.ReadMax` assumes that `read_max` copies min(buffer length, remaining) bytes and never fails.
- Read errors other than the end of input. `read_exact` at the end of input fails with `UnexpectedEof` and consumes nothing here. The real reader may consume a partial read, but the session fails either way.
- `Xmodem.ReceiveWithProgress` appends every accepted packet to the sink in one write after the loop ends, not one `write_all` per packet. The sink ends with the same bytes in the same order as the source's, on success and on failure. Only the number of `write_all` calls differs.
- XmodemProperties.RetryReceiveStep: receiver retries caused by anything other than a bad-checksum frame are stated one attempt at a time. The multi-attempt lemmas cover bad-checksum frames only.
- Blocking reads and timeouts are not modelled: the peer's bytes are a fixed script.
- `usize` overflow of the `written` and `received` counts is not modelled. The counts are unbounded integers.
- `StackVec::as_mut_slice`, `iter`, `iter_mut`, `IndexMut`, `Deref`, `DerefMut`, the `IntoIterator` impls and `StackVecIntoIter` are left out. They only hand out views or iterators of the slice that `AsSlice` models.
- StackVec.StackVec.Truncate: the `drop_in_place` loop over the removed slots has no counterpart. Dafny values have no destructors, so only the new length and contents are stated.
- `with_len` and `Index` panic on a bad argument. Here they require a good one.
- The shell's console output is left out: the prompt, the echoed characters, the backspace erase sequence, the bell, "failed", and the text of each reply, including `WELCOME_TXT`. `Reply` names which reply is printed.
- In the shell, a push onto the line that fails prints "failed". That branch is kept in `EditByte` and changes nothing. It cannot be reached, because the storage holds 512 bytes and `idx < MAX_LINE_LENGTH` is checked first.
- The shell's outer infinite loop, the `CONSOLE` lock, `FILESYSTEM`, `ALLOCATOR` and `Atags` are left out. One line is edited and dispatched at a time.
- `from_utf8` is the identity on the ASCII bytes the editor stores, which is `Decode`. `RunLine` therefore requires an ASCII line, and `HandleInput` shows that the editor only produces such lines. `from_utf8`'s failure branch and multi-byte characters cannot be reached from the editor.

## Findings

| source | as written | input that shows it | evidently intended | confidence | as-written member | corrected member |
|---|---|---|---|---|---|---|
| lib/xmodem/src/lib.rs:232-233 | the receiver reads the packet number and its complement with `read_byte(true)`, so a CAN byte (0x18) there aborts the transfer with `ConnectionAborted` | the 24th packet of a transfer, numbered 24 = 0x18, arrives as SOH, 0x18, 0xE7, payload, checksum. The sender writes it without complaint, and the receiver aborts after the number byte. Packet 231, whose complement is 0x18, fails the same way. So no transfer of more than 23 packets (2944 bytes) completes | a CAN in place of the number or complement cancels the transfer, except where CAN is the byte expected there, as `expect_byte` does at lib.rs line 195. Every frame the sender writes is then accepted, and a peer's CAN still aborts in every other case | not executed; follows from lib.rs lines 167-168 and 232-233 | XmodemSpec.StepReadPacketBodyAsWritten, XmodemProperties.AsWrittenAbortsPacket24, XmodemProperties.AsWrittenAbortsPacket231 | XmodemSpec.StepReadPacketBody, XmodemProperties.ReadPacketAcceptsFrame, XmodemProperties.ReadPacketCancelInHeader |

The rest of the model, including `Xmodem.Xmodem.ReadPacket` and the whole-transfer lemmas, uses the corrected reading.

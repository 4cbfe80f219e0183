# Verified models of the Crossing Reality toolkit and its TinyOS tree

The repository bundles a control panel with a TinyOS source tree. This project models
the parts whose correctness is not obvious from reading them, and proves what they are for.

**The host's serial link** (`tos.py`). The byte stuffing, the frame reader as a machine fed
byte by byte, the packet library's schema-driven packing, the received-packet filters, the
bounded receive buffer, the tracker of unacknowledged sequence numbers and the acknowledged
write with its retries. The line and the mote are an environment: frames and
acknowledgements arrive in order, may be lost anywhere, and are never forged or duplicated;
the mote acknowledges each frame it accepts once. Clock readings are inputs that never go
back. The main results are that a write that returns True was accepted by the mote with
exactly its payload as long as fewer than a hundred writes were started since the last one
that returned True (and that with a hundred this fails); that the reader gets back in step
after any noise and loses at most one good frame, and exactly when; that no packet is lost,
repeated or reordered by the receive buffer except by a counted overflow; and that packing
and unpacking are inverse. A write makes at most one attempt for each packet still on its way,
one for each that is given up, and one more; if nothing more is lost it ends with True. What a
write hears is stated down to the bytes of the line, silences included.

**The CRC** (`system/crc.h`, `chips/atm128/crc.h`). The bit loop, the loop-free form, for
which the header can give no reference to a derivation, and the 256-entry table are proved
interchangeable byte by byte. The error detection is exact: two different messages of equal
length collide if and only if the bits in which they differ form a multiple of the generator
polynomial x^16 + x^12 + x^5 + 1. It follows that, for messages, no burst of sixteen bits and
no odd number of flipped bits goes unnoticed, and that among bursts of seventeen bits only the
generator does.

**The CRC on the link.** What holds for messages does not carry over to frames unchanged. A
frame's CRC field travels low byte first, while the CRC takes its bits high byte first; and
damage on the line meets the byte stuffing. The results are about the bytes as they are
received. Whatever comes between two flags is unescaped and checked as one body, which passes
exactly if, with the field's bytes exchanged, it is a multiple of the generator. Damage that
makes no flag and leaves the escapes where they were is always noticed if it flips an odd
number of bits, stays inside twelve consecutive bits of the received bytes, or touches only
two bytes next to each other, but for a single damage to the last data byte and the byte after
it. Thirteen bits are too many. Damage to the stuffing is another matter, and there one
flipped bit can go unnoticed. Every damage to one byte of the data that makes no flag, and
every flipped bit of the CRC field that makes none, is classified: it goes unnoticed if and
only if it makes or unmakes an escape of a data byte, and the byte in the escape's place, as it
was sent or as it arrives, takes the CRC of the data before it to that CRC with one bit flipped:
the bit 0x2000, or, for an escape made out of the last data byte, the bit 0x0020. For an escape
made, the next byte on the line must also not be escaped itself. After the data 0x12, 0x02 the
bit between 0x75 and the escape byte goes unnoticed in both directions if more data follows. No
flipped bit of the field does so. A bit that makes a flag cuts the packet short, which goes
unnoticed if what is left is a whole body. Any frame with one damaged byte gives one result, and
the frames after it are read as sent; a lost flag costs at most one more frame.

**The oscilloscope** (`Node`, `Data`, `Window`, `Graph`, `Oscilloscope`). The sample store of
a mote, an array that grows, slides, restarts and marks gaps, agrees with the history of
messages. The index of stores agrees with the interleaved log of all motes, and the mote table
and the visible range agree with the index after every message, clear and zoom. The number of
readings per message is a parameter, so the two multihop copies of this code are covered.

**The circular queue** (`circularQueue.h`). Index arithmetic on eight bits, refining a
bounded deque in the client's array over every run of operations, for every size from 1 to 255.

**The control panel's registry** (`ControlPanel.java`). Nodes, sensors with their calibration
and the lists of ignored nodes and sensors, as maps and lists. Each statement sent to the database may
fail, and the handler then stops there. Whatever fails, a sensor's two columns are both empty
or exactly the least and the greatest of the readings that got through; the failures that can
make the registry inconsistent are named exactly. For every step the rows, lists, check boxes
and outcome are given exactly, with the statements it sends and what a failing one leaves behind.

**Scaling** (`scale.h`). 32-bit arithmetic with its wrap-around, and the exact loss of a round trip.

Pure functions specify the imperative code: a method or a class follows the source statement
by statement and is proved to compute its function, and the lemmas are about the functions.
Classes keep the source's fields; where the source keeps none (the history of messages, the
log of a run), the field is ghost.

Where the code and its own comments disagree, the model follows the code:

- `tos.py` lines 513-516 say that sequence numbers are forgotten after their time. One pass
  over k expired numbers forgets only the larger half of them; it forgets all of them exactly
  if k is at most 1 (`SeqTracking.ForgetsAllIff`).
- `ControlPanel.java` line 703 says that an unknown node is ignored when auto-adding is on; it
  is ignored when auto-adding is off.
- `tos.py` line 292 computes the time remaining for an acknowledgement, but line 293 reads with
  the whole timeout. The model takes what each read gives, and when, as an input.
- `scale.h` line 5 promises x * a/b when a * b fits a word. The result is that quotient only
  modulo 2^32 (`Scale.ScaleIsExactIff`). For any a and b it is that exactly if the product of
  the remainder fits a word (`Scale.ScaleIsQuotientIff`).
- `tos.py` lines 793-799 give an unsized blob the sizes of the fields after it, to be counted
  from the packet's end, but add up bits like bytes. With bit groups that fill bytes, values
  survive packing and unpacking exactly if no bits follow the blob (`PacketSchema.RoundTripsIff`),
  and so do packets (`PacketSchema.BytesSurviveIff`).

`dfyconfig.toml` lists the files; `dafny verify dfyconfig.toml` verifies them together.

## Model

| member | source | states |
|---|---|---|
| Crc16.LoopCrcByte | demo/tinyos-2.1.0/tos/system/crc.h:55-69 | the do/while loop, at sixteen bits, feeds one byte to the running CRC: eight shifts, each with the polynomial's feedback |
| Crc16.MessageCrc | demo/tinyos-2.1.0/support/sdk/python/tos.py:430-440 | the host's double loop is the running CRC of the whole message |
| Crc16.CrcAppend | demo/tinyos-2.1.0/support/sdk/python/tos.py:430-440 | feeding a message in two parts is feeding it whole |
| Crc16.EightTurns | demo/tinyos-2.1.0/tos/system/crc.h:71-87 | the missing derivation: eight turns of the loop in closed form, composed from one, two and four |
| Crc16.FastCrcByte | demo/tinyos-2.1.0/tos/system/crc.h:80-87 | the loop-free form, statement by statement, gives the bit loop's result for every CRC and byte |
| Crc16.TableHoldsLoopValues | demo/tinyos-2.1.0/tos/chips/atm128/crc.h:39-72 | each of the 256 entries is the loop's value for its index |
| Crc16.TableCrcByte | demo/tinyos-2.1.0/tos/chips/atm128/crc.h:101-103 | the table form, with the entry read low byte first, gives the bit loop's result |
| Crc16.MixedCrc | demo/tinyos-2.1.0/tos/system/crc.h:55-87 | whichever form handles each byte of a message, the running CRC is the same |
| CrcDetection.FeedBitsLinear | demo/tinyos-2.1.0/tos/system/crc.h:59-66 | the register is linear in its start value together with the bits fed to it |
| CrcDetection.CrcIsBitSerial | demo/tinyos-2.1.0/tos/system/crc.h:43-69 | the CRC of a message is what its bits leave in a register fed one bit at a time |
| CrcDetection.SameCrcIffPatternLeavesZero | demo/tinyos-2.1.0/tos/system/crc.h:55-69 | whether two messages collide depends only on the bits in which they differ, not on the start value |
| CrcDetection.MultipleLeavesZero | demo/tinyos-2.1.0/tos/system/crc.h:46 | every multiple of the generator polynomial leaves the register at zero |
| CrcDetection.Quotient | demo/tinyos-2.1.0/tos/system/crc.h:46 | long division: a pattern that leaves zero is the generator times a quotient, which is returned |
| CrcDetection.UnnoticedIffMultiple | demo/tinyos-2.1.0/tos/system/crc.h:43-69 | equally long messages have the same CRC exactly if they are the same or differ by a multiple of the generator |
| CrcDetection.SeventeenBitBurst | demo/tinyos-2.1.0/tos/system/crc.h:43-69 | among differences inside seventeen consecutive bits only the generator itself goes unnoticed |
| CrcDetection.DetectsBursts | demo/tinyos-2.1.0/tos/system/crc.h:43-69 | different messages that differ only inside sixteen consecutive bits have different CRCs, at any length and start value |
| CrcDetection.CrcParity | demo/tinyos-2.1.0/tos/system/crc.h:55-69 | the CRC's parity is the start value's parity and the message's together |
| CrcDetection.DetectsOddErrors | demo/tinyos-2.1.0/tos/system/crc.h:55-69 | any odd number of flipped bits changes the CRC |
| CrcApart.CrcSameTail | demo/tinyos-2.1.0/tos/system/crc.h:55-69 | whatever bytes follow, running CRCs end the same exactly if they were the same before |
| Framing.EscapeBytes | demo/tinyos-2.1.0/support/sdk/python/tos.py:486-494 | the escaping loop computes the escaping of every byte in turn |
| Framing.UnescapeBytes | demo/tinyos-2.1.0/support/sdk/python/tos.py:473-484 | the unescaping loop, with its pending flag, computes the unescaping |
| Framing.UnescapeEscape | demo/tinyos-2.1.0/support/sdk/python/tos.py:473-494 | unescaping inverts escaping, whatever follows on the line |
| Framing.EscapeShape | demo/tinyos-2.1.0/support/sdk/python/tos.py:486-494 | escaped data never holds a flag byte, and grows by one for each special byte |
| Framing.BuildFrame | demo/tinyos-2.1.0/support/sdk/python/tos.py:365-368 | a write appends the CRC low byte first, escapes, and puts flags around |
| Framing.DecodeLittleEndian | demo/tinyos-2.1.0/support/sdk/python/tos.py:449-453 | the decoding loop over the reversed field is little-endian decoding |
| Framing.FieldRoundTrip | demo/tinyos-2.1.0/support/sdk/python/tos.py:366-367 | decoding a frame's CRC field gives the CRC |
| Framing.SliceMeaning | demo/tinyos-2.1.0/support/sdk/python/tos.py:225-226 | a slice is one stretch of the packet, exactly the elements whose indices lie between its bounds, negative bounds counting from the end, however short the packet |
| Framing.FieldInNumbers | demo/tinyos-2.1.0/support/sdk/python/tos.py:449-453 | a field of two bytes decodes to the first plus 256 times the second; what is missing of a field counts for nothing |
| Framing.CheckPacket | demo/tinyos-2.1.0/support/sdk/python/tos.py:222-241 | a whole packet is unescaped, and its CRC compared with the field at its end, on Python's slices even when the packet is too short |
| Framing.Port.SkipToFlag | demo/tinyos-2.1.0/support/sdk/python/tos.py:183-191 | the skipping loop takes the machine to just after a flag with no result on the way, or into a silence |
| Framing.Port.Collect | demo/tinyos-2.1.0/support/sdk/python/tos.py:210-216 | the collecting loop takes the machine from the start of a packet to its result, or into a silence |
| Framing.Port.Read | demo/tinyos-2.1.0/support/sdk/python/tos.py:182-243 | one read takes exactly the events of one result of the byte-fed machine, and gives that result |
| Framing.Port.ReadMany | demo/tinyos-2.1.0/support/sdk/python/tos.py:130-138 | a loop of reads, as many turns as its clock allows, gives the machine's results for the line in order, and timeouts once there are no more |
| Framing.ReadFrame | demo/tinyos-2.1.0/support/sdk/python/tos.py:193-241 | a frame as written is read as its payload, and leaves the reader in step |
| Framing.ReadFrames | demo/tinyos-2.1.0/support/sdk/python/tos.py:182-241 | any number of frames as written, end to end, are read as their payloads, in order and with nothing in between |
| FrameDetection.PassesIffZero | demo/tinyos-2.1.0/support/sdk/python/tos.py:225-228 | a body passes the check exactly if, its field's bytes exchanged, it leaves the CRC at zero |
| FrameDetection.CheckedIffMultiple | demo/tinyos-2.1.0/support/sdk/python/tos.py:225-228 | a body passes exactly if it holds a CRC field and, its field's bytes exchanged, is a multiple of the generator |
| FrameDetection.GapClears | demo/tinyos-2.1.0/support/sdk/python/tos.py:366-367 | no multiple of the generator leaves the gap that a burst of twelve bits over the end of the data leaves in the CRC's order |
| FrameDetection.TwoBytesIff | demo/tinyos-2.1.0/support/sdk/python/tos.py:225-228 | a body damaged only in two adjacent bytes passes exactly if these are the last data byte, flipped by 0x89, and the field's low byte, flipped by 0xa1 |
| LineDamage.ReadBetweenFlags | demo/tinyos-2.1.0/support/sdk/python/tos.py:182-243 | whatever comes between two flags, without a flag, is read as one body, unescaped and checked, a pending escape at its end and a body too short for a CRC field included |
| LineDamage.AcceptedIff | demo/tinyos-2.1.0/support/sdk/python/tos.py:222-241 | bytes received in place of a frame's, if their body keeps its length, are read as a packet exactly if, in the CRC's order, the body is the one sent or the bits in error form a multiple of the generator; otherwise as a CRC error |
| LineDamage.DamagedFrameRejected | demo/tinyos-2.1.0/support/sdk/python/tos.py:222-230 | received bytes without a new flag and with the frame's stuffing are a CRC error if an odd number of their bits is damaged, or if their body is damaged inside sixteen consecutive bits in the CRC's order |
| LineDamage.ShortBurstRejected | demo/tinyos-2.1.0/support/sdk/python/tos.py:222-230 | received bytes without a new flag and with the frame's stuffing are a CRC error if they are damaged only inside twelve consecutive bits |
| LineDamage.TwoBytesDamaged | demo/tinyos-2.1.0/support/sdk/python/tos.py:222-230 | damage to two adjacent received bytes, in any of their bits, without a new flag and with the stuffing kept, is a CRC error unless it makes the one pair that passes |
| LineDamage.ThirteenBitBurst | demo/tinyos-2.1.0/support/sdk/python/tos.py:365-367 | a frame whose last data byte and CRC field need no escaping, damaged or not, has a burst of thirteen bits on the line that leaves its stuffing alone and is accepted with other data |
| LineDamage.FlagBetweenFlags | demo/tinyos-2.1.0/support/sdk/python/tos.py:182-216 | a flag between the flags of a frame ends the packet there; what follows is lost, and the reader is in step afterwards |
| LineDamage.OneByteDamaged | demo/tinyos-2.1.0/support/sdk/python/tos.py:182-241 | with one byte between the flags damaged in any of its bits the frame gives exactly one result, named for each way the damage meets the stuffing, and all frames after it are read as sent |
| LineDamage.OpeningFlagLost | demo/tinyos-2.1.0/support/sdk/python/tos.py:182-216 | a damaged opening flag makes a hunting reader skip the frame, and one that had seen a flag take the byte for the first of the packet; the frames after it are read as sent |
| LineDamage.ClosingFlagLost | demo/tinyos-2.1.0/support/sdk/python/tos.py:210-216 | a damaged closing flag runs the packet on to the next opening flag and loses that frame; the others are read as sent |
| EscapeDamage.MadeFlagUnnoticed | demo/tinyos-2.1.0/support/sdk/python/tos.py:210-241 | for all data and whatever follows it, one bit that makes a flag just behind a whole body cuts longer data down to that body, unnoticed |
| EscapeDamage.UnmadeEscape | demo/tinyos-2.1.0/support/sdk/python/tos.py:473-484 | an escape byte, in the data or the CRC field, that arrives as another byte: which body is then checked, a byte longer than the one sent |
| EscapeDamage.MadeEscape | demo/tinyos-2.1.0/support/sdk/python/tos.py:473-484 | a byte, in the data or the CRC field, that arrives as an escape: which body is then checked, the last byte and a next one that was itself escaped included |
| EscapeDamage.UnmadeEscapeIff | demo/tinyos-2.1.0/support/sdk/python/tos.py:473-484 | an escape byte of any data byte that arrives as another byte goes unnoticed exactly if that byte takes the CRC of the data before it to that CRC with the bit 0x2000 flipped |
| EscapeDamage.MadeEscapeIff | demo/tinyos-2.1.0/support/sdk/python/tos.py:473-484 | any data byte that arrives as an escape goes unnoticed exactly if the byte behind it was not escaped and it takes the CRC of the data before it to that CRC with one bit flipped: 0x2000 if a data byte is behind it, 0x0020 if it is the last |
| EscapeDamage.OneBitUnnoticed | demo/tinyos-2.1.0/support/sdk/python/tos.py:473-484 | after the data 0x12, 0x02 one bit between 0x75 and the escape byte goes unnoticed in both directions, whatever data follows |
| EscapeDamage.ExampleFrame | demo/tinyos-2.1.0/support/sdk/python/tos.py:365-368 | the frame of the data 0x12, 0x02, 0x7e, byte by byte, and the packet read from it with one bit of its escape byte flipped |
| EscapeDamage.ExampleAtEnd | demo/tinyos-2.1.0/support/sdk/python/tos.py:473-484 | one bit of the last data byte after 0x08, 0x05 cuts it off unnoticed, without the bit 0x2000; after 0x12, 0x02 the last byte 0x75 is noticed in spite of it |
| FieldDamage.UnmadeLowIff | demo/tinyos-2.1.0/support/sdk/python/tos.py:473-484 | the escape of the CRC field's low byte, unmade by any byte, goes unnoticed for exactly two fields, each with one byte |
| FieldDamage.UnmadeHighIff | demo/tinyos-2.1.0/support/sdk/python/tos.py:473-484 | the escape of the field's high byte, unmade by any byte, goes unnoticed for exactly two bytes, each with one difference of the field's bytes |
| FieldDamage.MadeLowIff | demo/tinyos-2.1.0/support/sdk/python/tos.py:473-484 | the field's low byte arriving as an escape: exactly which last data byte and field let it pass, and what is then read |
| FieldDamage.MadeHighIff | demo/tinyos-2.1.0/support/sdk/python/tos.py:473-484 | the field's high byte arriving as an escape goes unnoticed exactly if the last data byte and the low byte are the field of the data before them |
| FieldDamage.FieldBitNoticed | demo/tinyos-2.1.0/support/sdk/python/tos.py:222-230 | one flipped bit of the CRC field on the line that makes no flag is a CRC error, also where it makes or unmakes an escape |
| FieldDamage.OneByteUnnoticedIff | demo/tinyos-2.1.0/support/sdk/python/tos.py:182-241 | a damaged byte that makes no flag, any of the data or one bit of the field, goes unnoticed exactly if it makes or unmakes an escape of a data byte under the conditions above |
| Framing.Resynchronises | demo/tinyos-2.1.0/support/sdk/python/tos.py:157-216 | after any noise all frames are read but possibly the first, which is lost exactly if the noise left the reader inside a packet |
| Framing.ReadSpaced | demo/tinyos-2.1.0/support/sdk/python/tos.py:182-243 | silences between frames, of any number of timeouts, lose none of them |
| Framing.ResynchronisesSpaced | demo/tinyos-2.1.0/support/sdk/python/tos.py:157-216 | after any noise, frames with silences between them are all read but possibly the first, which is lost exactly if the noise left the reader inside a packet and no silence came before it |
| Framing.SilenceResynchronises | demo/tinyos-2.1.0/support/sdk/python/tos.py:242-243 | a timeout before the frames loses none of them |
| Framing.SpacedGivesFirst | demo/tinyos-2.1.0/support/sdk/python/tos.py:182-243 | one read of a line of frames with silences between them takes the first silence or exactly the first frame, and leaves the rest |
| SeqTracking.SeqTracker.Collect | demo/tinyos-2.1.0/support/sdk/python/tos.py:560-572 | the loop that removes from the list it iterates over computes Gc |
| SeqTracking.SeqTracker.SeqnoSent | demo/tinyos-2.1.0/support/sdk/python/tos.py:522-526 | expire by one clock reading, then append with the next |
| SeqTracking.SeqTracker.SeqnoAcked | demo/tinyos-2.1.0/support/sdk/python/tos.py:528-543 | expire, then take out the oldest entry with the number, or report it unknown |
| SeqTracking.GcLeavesHalf | demo/tinyos-2.1.0/support/sdk/python/tos.py:560-572 | a pass over k expired entries leaves floor(k/2) of them and touches nothing after them |
| SeqTracking.GcTakesEverySecond | demo/tinyos-2.1.0/support/sdk/python/tos.py:560-572 | which entries a pass leaves: of expired entries that differ, the second, the fourth and so on, and after them all the others, in order |
| SeqTracking.ForgetsAllIff | demo/tinyos-2.1.0/support/sdk/python/tos.py:513-516 | the documented forgetting holds exactly if at most one entry is expired |
| SeqTracking.GcKeepsYoung | demo/tinyos-2.1.0/support/sdk/python/tos.py:563-572 | an entry that is not expired is never dropped |
| SeqTracking.GcConserves | demo/tinyos-2.1.0/support/sdk/python/tos.py:560-572 | every entry is kept or dropped, and only expired ones are dropped |
| SeqTracking.OrderedPrefix | demo/tinyos-2.1.0/support/sdk/python/tos.py:568-572 | in a queue in time order the expired entries are a prefix |
| SeqTracking.GcKeepsOrder | demo/tinyos-2.1.0/support/sdk/python/tos.py:560-572 | a pass keeps the queue in time order |
| SeqTracking.KnownWhileYoung | demo/tinyos-2.1.0/support/sdk/python/tos.py:513-516 | an acknowledgement of a number sent at most 15 seconds before is never unknown |
| SeqTracking.SentConserves | demo/tinyos-2.1.0/support/sdk/python/tos.py:522-526 | noting a number adds exactly it, beside what expires |
| SeqTracking.AckedConserves | demo/tinyos-2.1.0/support/sdk/python/tos.py:528-543 | a known acknowledgement takes exactly its own number; an unknown one means none is left |
| SeqTracking.SentAppends | demo/tinyos-2.1.0/support/sdk/python/tos.py:522-526 | noting a number keeps what a pass with a cutoff 15 seconds back leaves, and puts the number last with its own time stamp |
| SeqTracking.AckedTakesOldest | demo/tinyos-2.1.0/support/sdk/python/tos.py:528-543 | after such a pass an acknowledgement is known exactly if an entry has its number, and takes the first such entry and no other |
| SeqTracking.KnownFor | demo/tinyos-2.1.0/support/sdk/python/tos.py:126 | the only number tracked is known until 15 seconds after it was sent and no longer |
| Printf.SplitLines | demo/tinyos-2.1.0/support/sdk/python/tos.py:678 | splitting at newlines, byte by byte, computes Split |
| Printf.SplitJoins | demo/tinyos-2.1.0/support/sdk/python/tos.py:678 | the pieces hold no newline and rejoin to the text |
| Printf.SplitAppend | demo/tinyos-2.1.0/support/sdk/python/tos.py:674-681 | the split of a concatenation is the two splits glued at the seam |
| Printf.StripMeaning | demo/tinyos-2.1.0/support/sdk/python/tos.py:674 | stripping takes all NUL bytes off both ends and nothing else |
| Printf.AcceptStep | demo/tinyos-2.1.0/support/sdk/python/tos.py:670-683 | one packet keeps the printed lines with the split of what is still to come the same |
| Printf.StreamingEqualsBatch | demo/tinyos-2.1.0/support/sdk/python/tos.py:670-683 | however the text is cut into packets, the printed lines and the remainder are the split of the whole, and the remainder holds no newline |
| LinkPackets.AckFields | demo/tinyos-2.1.0/support/sdk/python/tos.py:932-937 | the ack filter takes exactly the packets that, read as an AckFrame, have 67 in the first field, and keeps the second, short packets included |
| LinkPackets.PrintfFields | demo/tinyos-2.1.0/support/sdk/python/tos.py:670-674 | the printf filter takes exactly the packets that are no acknowledgement and whose ActiveMessage, inside a NoAckDataFrame, has type 100, and its text is that message's data |
| LinkPackets.ClassifiedByLayout | demo/tinyos-2.1.0/support/sdk/python/tos.py:670-674 | what the filters make of a packet, told from its bytes in order: protocol, dispatch, addresses, length, group, type and data |
| LinkPackets.HandedExactly | demo/tinyos-2.1.0/support/sdk/python/tos.py:321-335 | a read with an empty buffer hands a packet to the application exactly if it is neither an acknowledgement nor a printf packet by its fields; only a printf packet changes anything, and exactly the printer |
| LinkPackets.HeardExactly | demo/tinyos-2.1.0/support/sdk/python/tos.py:289-312 | what a waiting write makes of a packet, by its fields: an acknowledgement goes to the tracker and ends the wait exactly if unknown or expected, a printf packet is printed, any other is buffered, the oldest giving way in a full buffer |
| LinkPackets.WrittenFields | demo/tinyos-2.1.0/support/sdk/python/tos.py:359-364 | the bytes a write sends are a packed DataFrame with 68, the sequence number, 0 and the payload |
| SerialHost.SimpleSerial.WriteAckFilter | demo/tinyos-2.1.0/support/sdk/python/tos.py:245-253 | takes exactly the acknowledgements, and keeps the last |
| SerialHost.SimpleSerial.PrintfFilter | demo/tinyos-2.1.0/support/sdk/python/tos.py:670-683 | takes exactly the printf packets the ack filter left (which these are, PrintfFields says), and prints their whole lines |
| SerialHost.SimpleSerial.FilterRead | demo/tinyos-2.1.0/support/sdk/python/tos.py:265-274 | the filters run in order until one takes the packet; AckFields and PrintfFields say which one takes it |
| SerialHost.SimpleSerial.GetAck | demo/tinyos-2.1.0/support/sdk/python/tos.py:276-315 | the waiting loop computes WaitForAck: buffering, overflow, unknown and stale acknowledgements, and the empty pop of a buffer of size zero |
| SerialHost.WaitMeaning | demo/tinyos-2.1.0/support/sdk/python/tos.py:289-315 | the wait takes one packet a turn, each turn started before its end time, and ends at the first turn that decides: silence or time over raises a timeout, a wrong CRC a read error, a packet what hearing it says |
| SerialHost.Deadline | demo/tinyos-2.1.0/support/sdk/python/tos.py:651-658 | an attempt notes its number with the two clock readings and waits the smaller of 0.2 seconds and the time the write had left |
| SerialHost.SimpleSerial.Write | demo/tinyos-2.1.0/support/sdk/python/tos.py:337-386 | one attempt notes the number before sending exactly the framed DataFrame, and waits |
| SerialHost.SimpleSerial.Read | demo/tinyos-2.1.0/support/sdk/python/tos.py:321-335 | the buffer first, oldest packet first; otherwise one packet from the line, through the filters; a timeout or a CRC error is raised and changes nothing |
| SerialHost.Serial.Write | demo/tinyos-2.1.0/support/sdk/python/tos.py:632-668 | the number advances modulo 100, and the line carries one identical frame per attempt of WriteRun, whose result and number of attempts WriteMeaning fixes |
| SerialHost.Serial.Retry | demo/tinyos-2.1.0/support/sdk/python/tos.py:649-668 | the retry loop computes WriteRun, whose every test of the clock WriteMeaning fixes |
| SerialHost.WriteMeaning | demo/tinyos-2.1.0/support/sdk/python/tos.py:649-668 | a write makes attempt after attempt, each started before the limit, and stops after the first that is acknowledged or crashes, or at the first test that finds the limit passed; its result says which |
| SerialHost.SendsInTime | demo/tinyos-2.1.0/support/sdk/python/tos.py:649-668 | a write that starts before its limit sends a frame; one that times out found its limit passed; one without a limit never times out |
| SerialHost.CopiesAre | demo/tinyos-2.1.0/support/sdk/python/tos.py:365-371 | what a write puts on the line is one whole frame after the other |
| StopAndWait.BufferedStep | demo/tinyos-2.1.0/support/sdk/python/tos.py:296-301 | every step keeps the receive buffer, of any size, the suffix of the arrivals neither read nor pushed out, and what was read the arrivals at the recorded positions |
| StopAndWait.NumberedStep | demo/tinyos-2.1.0/support/sdk/python/tos.py:646-647 | every step keeps the sequence number the number of writes started modulo 100 |
| StopAndWait.ConservedStep | demo/tinyos-2.1.0/support/sdk/python/tos.py:522-543 | for each number, what is in flight is covered by what the tracker holds and what it has forgotten, even when read swallows acknowledgements |
| StopAndWait.LabelledStep | demo/tinyos-2.1.0/support/sdk/python/tos.py:337-372 | frames and acknowledgements carry their write's number and payload, in the order of the writes, through losses and retries |
| StopAndWait.HearFirstAck | demo/tinyos-2.1.0/support/sdk/python/tos.py:304-312 | an acknowledgement that ends a write belongs to that very write, however many late ones of others are about |
| StopAndWait.SafeStep | demo/tinyos-2.1.0/support/sdk/python/tos.py:276-315 | every step keeps that writes that returned True were accepted and that nothing older is in flight |
| StopAndWait.SoundStep | demo/tinyos-2.1.0/support/sdk/python/tos.py:276-382 | every enabled step keeps all the laws of the system |
| StopAndWait.WrittenMeansAccepted | demo/tinyos-2.1.0/support/sdk/python/tos.py:632-668 | in every run with fewer than a hundred writes started since the last acknowledged one (or the first, if none was), a write that returned True was accepted with exactly its payload |
| StopAndWait.AcceptedInOrder | demo/tinyos-2.1.0/support/sdk/python/tos.py:632-668 | in every run the mote accepts writes in the order they were started, each with its own payload |
| StopAndWait.HundredIsTooMany | demo/tinyos-2.1.0/support/sdk/python/tos.py:646-647 | with a hundred there is a run in which a write returns True and the mote never saw its payload |
| StopAndWait.HundredAndOneWithout | demo/tinyos-2.1.0/support/sdk/python/tos.py:646-647 | the same before any write has returned True, a hundred writes after the first |
| StopAndWait.ReceiveBufferConserves | demo/tinyos-2.1.0/support/sdk/python/tos.py:296-335 | in every run arrivals are handed out, pushed out or buffered, each once and in order, what read returned is the arrivals at its positions, and the buffer holds at most qsize |
| StopAndWait.UnknownMeansForgotten | demo/tinyos-2.1.0/support/sdk/python/tos.py:533-543 | an acknowledgement is called unknown only after an entry with its number expired; if nothing expires, never |
| StopAndWait.CleanExchange | demo/tinyos-2.1.0/support/sdk/python/tos.py:337-382 | an attempt on a clean line that loses nothing ends the write with True |
| WriteProgress.AttemptsBounded | demo/tinyos-2.1.0/support/sdk/python/tos.py:649-668 | whatever is lost or given up, a write sends at most once for each frame and packet on its way, once for each attempt given up and once more; it is over within a bounded number of steps, and then with True unless its time ran out or the buffer has no room |
| WriteProgress.LosslessWriteEnds | demo/tinyos-2.1.0/support/sdk/python/tos.py:649-668 | in every run from a sound state that loses and gives up nothing, a write sends at most once for each frame and packet on its way and once more, and returns True within a bounded number of steps, whatever acknowledgements, known or unknown, come first |
| WriteProgress.LosslessWriteCanEnd | demo/tinyos-2.1.0/support/sdk/python/tos.py:649-668 | there always is a next step, and taking it again and again ends the write with True within these bounds |
| WriteSession.ReadTakesFirst | demo/tinyos-2.1.0/support/sdk/python/tos.py:182-243 | a read of a port that holds the framed bytes of the packets on their way, with any silences, gives the first packet and leaves the framed bytes of the others |
| WriteSession.LineHandsOut | demo/tinyos-2.1.0/support/sdk/python/tos.py:130-138 | read often enough, such a port hands out exactly these packets, in order, and no error |
| WriteSession.WaitIsRun | demo/tinyos-2.1.0/support/sdk/python/tos.py:276-315 | the waiting loop, each turn reading the bytes of the line, with anything happening between its turns, is a run of the system with the same outcome |
| WriteSession.ReadIsStep | demo/tinyos-2.1.0/support/sdk/python/tos.py:321-335 | a read between writes is a step of the system and hands out what the step records; on a silent line it raises |
| WriteSession.TryIsRun | demo/tinyos-2.1.0/support/sdk/python/tos.py:337-386 | one attempt is a run of the system with the same outcome |
| WriteSession.WriteIsRun | demo/tinyos-2.1.0/support/sdk/python/tos.py:632-668 | the retry loop is a run of the system with the same result, in which no other write starts |
| WriteSession.WriteTrueMeansAccepted | demo/tinyos-2.1.0/support/sdk/python/tos.py:632-668 | whenever the library's own retry loop returns True after any history, the mote has accepted exactly that payload, under the bound of a hundred; what the loop hears are reads of the framed bytes |
| PacketSchema.DecodeBytes | demo/tinyos-2.1.0/support/sdk/python/tos.py:775-779 | the decoding loop computes big-endian decoding |
| PacketSchema.EncodeInt | demo/tinyos-2.1.0/support/sdk/python/tos.py:781-787 | the encoding loop, low byte first and then reversed, computes big-endian encoding |
| PacketSchema.DecodeEncode | demo/tinyos-2.1.0/support/sdk/python/tos.py:775-787 | decoding an encoded number that fits gives it back |
| PacketSchema.EncodeDecode | demo/tinyos-2.1.0/support/sdk/python/tos.py:775-787 | encoding decoded bytes gives them back |
| PacketNumbers.DecodeConcat | demo/tinyos-2.1.0/support/sdk/python/tos.py:775-779 | decoding is big-endian: bytes in front count for the number below times 256 to the number of bytes behind |
| PacketNumbers.EncodeKeepsLow | demo/tinyos-2.1.0/support/sdk/python/tos.py:781-787 | encoding any number, negative or too large, keeps its low bytes |
| PacketSchema.ExtractPlace | demo/tinyos-2.1.0/support/sdk/python/tos.py:807-814 | bits packed at an offset are unpacked there, whatever is packed below them later |
| PacketSchema.PlaceExtract | demo/tinyos-2.1.0/support/sdk/python/tos.py:907-915 | packing the bits unpacked rebuilds the byte, group by group |
| PacketNumbers.ExtractIs | demo/tinyos-2.1.0/support/sdk/python/tos.py:807-810 | the bits unpacked, as a number: the byte divided by the power of two below them, modulo that of their width |
| PacketNumbers.PlaceIs | demo/tinyos-2.1.0/support/sdk/python/tos.py:907-912 | packing bits adds them, shifted up to their place, to the byte so far |
| PacketNumbers.FitsIff | demo/tinyos-2.1.0/support/sdk/python/tos.py:907-912 | bits fit their place exactly if they are below the power of two of its width |
| PacketNumbers.UnfilledByteIff | demo/tinyos-2.1.0/support/sdk/python/tos.py:803-814 | behind a byte that bits do not fill an integer is unpacked from that same byte, and packed into the next: values survive exactly if they happen to agree |
| PacketNumbers.NoRoomInByte | demo/tinyos-2.1.0/support/sdk/python/tos.py:807-810 | bits that do not fit the byte begun are neither unpacked nor packed |
| PacketSchema.ResolveSizes | demo/tinyos-2.1.0/support/sdk/python/tos.py:793-799 | the constructor's loop from the end gives the last unsized blob the negative of the sizes after it |
| PacketSchema.Packet.Unpack | demo/tinyos-2.1.0/support/sdk/python/tos.py:803-827 | the unpacking loop, with its byte and bit offsets, computes Parse |
| PacketSchema.Packet.Pack | demo/tinyos-2.1.0/support/sdk/python/tos.py:899-920 | the packing loop computes PackAll: too few values raise, those beyond the schema are appended |
| PacketSchema.ValuesRoundTrip | demo/tinyos-2.1.0/support/sdk/python/tos.py:803-827 | unpacking what was packed gives every value back |
| PacketSchema.BytesRoundTrip | demo/tinyos-2.1.0/support/sdk/python/tos.py:899-920 | packing what was unpacked from a long enough packet gives its bytes back |
| PacketSchema.ResolvedIsWellFormed | demo/tinyos-2.1.0/support/sdk/python/tos.py:793-800 | resolving sizes makes every description with at most one unsized blob and no bits after it a schema that round-trips |
| PacketSchema.DescribedRoundTrips | demo/tinyos-2.1.0/support/sdk/python/tos.py:789-827 | both round trips for every such description |
| PacketSchema.BitsCountMore | demo/tinyos-2.1.0/support/sdk/python/tos.py:793-799 | the constructor's sum counts every byte of bits for seven bytes more than it takes |
| PacketSchema.BitsAfterUnsizedFail | demo/tinyos-2.1.0/support/sdk/python/tos.py:793-827 | with bits after the unsized blob, no values with a nonempty blob survive packing and unpacking |
| PacketSchema.RoundTripsIff | demo/tinyos-2.1.0/support/sdk/python/tos.py:793-827 | for descriptions with at most one unsized blob anywhere, other sizes fixed and bit groups filling bytes, all suited values round-trip exactly if no bits follow that blob |
| PacketSchema.BytesSurviveIff | demo/tinyos-2.1.0/support/sdk/python/tos.py:793-827 | for the same descriptions all packets that are long enough survive unpacking and packing exactly if no bits follow the unsized blob |
| PacketSchema.BytesAfterUnsizedLost | demo/tinyos-2.1.0/support/sdk/python/tos.py:793-827 | if bits follow it, every packet long enough for the blob to end behind its start loses its last bytes, exactly as many as the sizes after the blob exceed the bytes there |
| PacketSchema.ZeroSizeBlobIff | demo/tinyos-2.1.0/support/sdk/python/tos.py:819-827 | values of a schema with a blob of size zero, at any place and whatever it holds, round-trip exactly if the fields after it need no bytes |
| SampleStore.Node.SetEnd | demo/tinyos-2.1.0/apps/Oscilloscope/java/Node.java:38-81 | the window becomes NextWindow, which WindowInNumbers gives in numbers, older samples keep their cells, and the gap is marked |
| SampleStore.Node.MakeRoom | demo/tinyos-2.1.0/apps/Oscilloscope/java/Node.java:39-70 | restart, extend or squish, with every sample that stays in the window kept |
| SampleStore.Node.MarkGap | demo/tinyos-2.1.0/apps/Oscilloscope/java/Node.java:71-75 | exactly the samples between the old end and the new message become -1 |
| SampleStore.Node.Update | demo/tinyos-2.1.0/apps/Oscilloscope/java/Node.java:85-91 | the array, its bounds and its gaps agree with the history extended by the message, and the cells copied so far are counted |
| SampleStore.Node.GetData | demo/tinyos-2.1.0/apps/Oscilloscope/java/Node.java:94-100 | a sample is what the history says, -1 below the window; RetentionInNumbers and LastMessageReadable say for which samples |
| SampleStore.Node.MaxX | demo/tinyos-2.1.0/apps/Oscilloscope/java/Node.java:103-105 | the last sample of the last message |
| SampleStore.LatestMeaning | demo/tinyos-2.1.0/apps/Oscilloscope/java/Node.java:35-37 | a sample is held exactly if a message gave it and every later one started above it, and then it is that message's reading |
| SampleStore.NextIsSound | demo/tinyos-2.1.0/apps/Oscilloscope/java/Node.java:15-20 | the array's length stays a multiple of the increment up to the largest size, and the window starts at a multiple of n, only moving up unless it restarts; WindowInNumbers gives the numbers |
| SampleStore.WindowInNumbers | demo/tinyos-2.1.0/apps/Oscilloscope/java/Node.java:19-70 | the window after a message, exactly: 100 messages long from it on after a restart; unchanged if the message fits; else grown by just enough hundreds of messages, up to 10000; else 10000 long and starting 9900 messages before the message |
| SampleStore.WindowIsSound | demo/tinyos-2.1.0/apps/Oscilloscope/java/Node.java:15-29 | so after every history, and no window is there before the first message |
| SampleStore.Retention | demo/tinyos-2.1.0/apps/Oscilloscope/java/Node.java:58-70 | a readable sample below a message keeps its value exactly unless that message squishes and starts more than the capacity less an increment above it; RetentionInNumbers gives the numbers |
| SampleStore.RetentionInNumbers | demo/tinyos-2.1.0/apps/Oscilloscope/java/Node.java:19-70 | a readable sample below a message survives it exactly if the message starts at most 9900 messages above the sample or less than 10000 above the window's start |
| SampleStore.LastMessageReadable | demo/tinyos-2.1.0/apps/Oscilloscope/java/Node.java:85-91 | the last message's readings are all there, at the samples its number gives, and there is nothing above them |
| SampleStore.StepAdvances | demo/tinyos-2.1.0/apps/Oscilloscope/java/Node.java:60-69 | a squish takes the window's end up by at least an increment, as starts are multiples of n |
| SampleStore.AmortisedSliding | demo/tinyos-2.1.0/apps/Oscilloscope/java/Node.java:45-70 | over any run without a restart, squishes cost an increment of advance each and all copying is at most 99 cells per sample the window advances |
| SampleStore.CopyingAmortised | demo/tinyos-2.1.0/apps/Oscilloscope/java/Node.java:45-70 | so do the cells that a store counts as it copies them, from any point of its history on |
| SampleStore.SquishesApart | demo/tinyos-2.1.0/apps/Oscilloscope/java/Node.java:58-69 | any two squishes of a run without a restart have starts at least an increment apart |
| SampleStore.StaysSmall | demo/tinyos-2.1.0/apps/Oscilloscope/java/Node.java:85-87 | with 16-bit counts nothing the store computes, the sums on the way to a rounding included, exceeds 65636 * n, which fits an int for n up to 32718 |
| Oscilloscope.LatestOfLog | demo/tinyos-2.1.0/apps/Oscilloscope/java/Data.java:26-50 | a mote's samples are those its own entries in the interleaved log gave, whatever other motes sent in between |
| Oscilloscope.Data.Grow | demo/tinyos-2.1.0/apps/Oscilloscope/java/Data.java:27-36 | an index that is too short doubles, or reaches just to the mote if that is more, and loses no node |
| Oscilloscope.Data.NodeFor | demo/tinyos-2.1.0/apps/Oscilloscope/java/Data.java:37-41 | a mote not heard before gets a node and is announced to the table; a known one is not |
| Oscilloscope.Data.Receive | demo/tinyos-2.1.0/apps/Oscilloscope/java/Data.java:42 | the message goes to the mote's own store and changes no other |
| Oscilloscope.Data.Update | demo/tinyos-2.1.0/apps/Oscilloscope/java/Data.java:26-43 | every store keeps exactly its mote's part of the log |
| Oscilloscope.Data.GetData | demo/tinyos-2.1.0/apps/Oscilloscope/java/Data.java:46-50 | a mote's sample is what the log shows, -1 for an unknown mote |
| Oscilloscope.Data.MaxXOf | demo/tinyos-2.1.0/apps/Oscilloscope/java/Data.java:54-58 | a mote's last sample, 0 for an unknown mote |
| Oscilloscope.Data.MaxX | demo/tinyos-2.1.0/apps/Oscilloscope/java/Data.java:62-75 | the loop finds the largest last sample of any mote, 0 if there is none |
| Oscilloscope.MoteTable.NewNode | demo/tinyos-2.1.0/apps/Oscilloscope/java/Window.java:88-101 | the table stays strictly ascending, gains exactly the mote, and every row keeps its own color |
| Oscilloscope.MoteTable.SetValueAt | demo/tinyos-2.1.0/apps/Oscilloscope/java/Window.java:71-76 | the mote in the row gets the color and no other changes |
| Oscilloscope.MoteTable.Clear | demo/tinyos-2.1.0/apps/Oscilloscope/java/Window.java:104-108 | no row is left |
| Oscilloscope.InsertAscending | demo/tinyos-2.1.0/apps/Oscilloscope/java/Window.java:92-99 | inserting at the place the search loop finds keeps the order and adds exactly one mote |
| Oscilloscope.InsertColored | demo/tinyos-2.1.0/apps/Oscilloscope/java/Window.java:94-96 | inserting in both lists at one place keeps every mote's color |
| Oscilloscope.CycleIs | demo/tinyos-2.1.0/apps/Oscilloscope/java/Window.java:43-46 | a new mote's color goes round seven places, with yellow twice |
| Oscilloscope.Graph.Recenter | demo/tinyos-2.1.0/apps/Oscilloscope/java/Graph.java:205-216 | the range keeps its width, starts no lower than 0 and shows the newest sample, at the three-quarter point unless it starts at 0 |
| Oscilloscope.Graph.NewData | demo/tinyos-2.1.0/apps/Oscilloscope/java/Graph.java:219-226 | nothing moves if the newest sample is in sight, and otherwise the range is placed anew with its width |
| Oscilloscope.Graph.SetScale | demo/tinyos-2.1.0/apps/Oscilloscope/java/Graph.java:229-234 | the range is 50 * 2^scale wide and places the newest sample at the three-quarter point, or as near as starting at 0 allows |
| Oscilloscope.ShlIsPow2 | demo/tinyos-2.1.0/apps/Oscilloscope/java/Graph.java:230 | shifting left multiplies by a power of two |
| Oscilloscope.RangeInNumbers | demo/tinyos-2.1.0/apps/Oscilloscope/java/Graph.java:203-234 | in numbers: the range is 50 * 2^scale wide, and the sample it is placed by has three quarters of it below, or less if it starts at 0 |
| Oscilloscope.Oscilloscope.MessageReceived | demo/tinyos-2.1.0/apps/Oscilloscope/java/Oscilloscope.java:65-77 | after a message the table lists exactly the motes heard, and the graph shows the newest sample, moved only if it did not |
| Oscilloscope.Oscilloscope.ClearData | demo/tinyos-2.1.0/apps/Oscilloscope/java/Window.java:243-249 | after a clear no mote is left, and the graph starts at 0 |
| Oscilloscope.Oscilloscope.SetScale | demo/tinyos-2.1.0/apps/Oscilloscope/java/Window.java:203-208 | after a zoom the graph is 50 * 2^scale wide and placed by the newest sample of all motes |
| Oscilloscope.Oscilloscope.PeriodUpdate | demo/tinyos-2.1.0/apps/Oscilloscope/java/Oscilloscope.java:81-92 | a newer version is adopted, an older one answered with a broadcast |
| Oscilloscope.Oscilloscope.SetInterval | demo/tinyos-2.1.0/apps/Oscilloscope/java/Oscilloscope.java:97-105 | periods outside 1 to 65535 are refused; an accepted one gets the next version and is broadcast with it |
| Oscilloscope.NewestPeriod | demo/tinyos-2.1.0/apps/Oscilloscope/java/Oscilloscope.java:42-46 | over any run of messages the period in force is the first one heard with the newest version |
| Oscilloscope.AnswersOlder | demo/tinyos-2.1.0/apps/Oscilloscope/java/Oscilloscope.java:81-92 | over any run of messages exactly those older than one known before are answered, each once, with the version and period in force at that moment |
| CircularQueue.Stepping | demo/invent/sensorboard/circularQueue.h:57-66 | within the array the two steps are inverse and go round its end without leaving eight bits |
| CircularQueue.ObserversAgree | demo/invent/sensorboard/circularQueue.h:69-86 | empty, full and the count say what the slots in use say |
| CircularQueue.SlotsAreDistinct | demo/invent/sensorboard/circularQueue.h:45-47 | the slots in use are distinct, from the back index to the front index |
| CircularQueue.PushFrontSlots | demo/invent/sensorboard/circularQueue.h:91-109 | a push at the front fails exactly if all slots are in use, and otherwise adds one at that end |
| CircularQueue.PushBackSlots | demo/invent/sensorboard/circularQueue.h:114-132 | the same at the back |
| CircularQueue.PopFrontSlots | demo/invent/sensorboard/circularQueue.h:137-151 | a pop takes the front slot, and reports SUCCESS exactly if any is left |
| CircularQueue.PopBackSlots | demo/invent/sensorboard/circularQueue.h:156-170 | the same at the back |
| CircularQueue.ForciblyPushFrontSlots | demo/invent/sensorboard/circularQueue.h:176-195 | a forcible push adds a slot, dropping the other end's if all were in use |
| CircularQueue.ForciblyPushBackSlots | demo/invent/sensorboard/circularQueue.h:201-220 | the same at the back |
| CircularQueue.PopFrontUndoesPush | demo/invent/sensorboard/circularQueue.h:91-151 | push and pop at the front restore the very indices, also from empty |
| CircularQueue.PopBackUndoesPush | demo/invent/sensorboard/circularQueue.h:114-170 | the same at the back |
| CircularQueue.Refines | demo/invent/sensorboard/circularQueue.h:89-220 | each operation, with the client's write of the new end, does to the contents what it does to a bounded deque |
| CircularQueue.RunsRefine | demo/invent/sensorboard/circularQueue.h:49-220 | so does every run of operations |
| CircularQueue.ForcedKeepLast | demo/invent/sensorboard/circularQueue.h:173-195 | a run of forcible pushes at the front keeps exactly the last items there is room for |
| CircularQueue.ForcedBackKeepFirst | demo/invent/sensorboard/circularQueue.h:198-220 | and at the back, newest first |
| CircularQueue.ForcedRun | demo/invent/sensorboard/circularQueue.h:173-195 | the same in the client's array |
| CircularQueue.SizeZeroKeepsNothing | demo/invent/sensorboard/circularQueue.h:91-132 | a queue of size zero is always empty, yet its pushes report SUCCESS |
| CircularQueue.CircularQueue.constructor | demo/invent/sensorboard/circularQueue.h:49-54 | the queue starts empty |
| CircularQueue.CircularQueue.PushFront | demo/invent/sensorboard/circularQueue.h:91-109 | the operation on the fields computes AfterPushFront, with its effect on the slots |
| CircularQueue.CircularQueue.PushBack | demo/invent/sensorboard/circularQueue.h:114-132 | the same for AfterPushBack |
| CircularQueue.CircularQueue.PopFront | demo/invent/sensorboard/circularQueue.h:137-151 | the same for AfterPopFront |
| CircularQueue.CircularQueue.PopBack | demo/invent/sensorboard/circularQueue.h:156-170 | the same for AfterPopBack |
| CircularQueue.CircularQueue.ForciblyPushFront | demo/invent/sensorboard/circularQueue.h:176-195 | the same for AfterForciblyPushFront |
| CircularQueue.CircularQueue.ForciblyPushBack | demo/invent/sensorboard/circularQueue.h:201-220 | the same for AfterForciblyPushBack |
| Registry.CalibratedSpans | toolkit/ControlPanel/src/CrossingReality/ControlPanel.java:979-1161 | a reading widens a row that spans the readings so far to span it too, and a failed statement leaves a row that still spans them |
| Registry.RowStep | toolkit/ControlPanel/src/CrossingReality/ControlPanel.java:915-1162 | a row changes only by a reset or by a reading that got through |
| Registry.CalibrationIsExact | toolkit/ControlPanel/src/CrossingReality/ControlPanel.java:912-1162 | in every run, whatever fails, both columns are empty or hold exactly the least and greatest reading since registration or the last reset |
| Registry.TidyExactly | toolkit/ControlPanel/src/CrossingReality/ControlPanel.java:2006-2049 | a step puts a registered node on the ignore list exactly if it removes one with the box checked and the deletion fails |
| Registry.HousedExactly | toolkit/ControlPanel/src/CrossingReality/ControlPanel.java:2038-2049 | a step leaves a sensor without its node exactly if it removes a node with sensors and fails between its two deletions |
| Registry.RegistryStaysConsistent | toolkit/ControlPanel/src/CrossingReality/ControlPanel.java:2041-2045 | in every run in which no removal of a node fails, every sensor's node is registered and no registered node is ignored |
| Registry.AddressWasSet | toolkit/ControlPanel/src/CrossingReality/ControlPanel.java:2283-2288 | a node's address is one the user set for it, held ever since |
| Registry.ForwardedOnlyIf | toolkit/ControlPanel/src/CrossingReality/ControlPanel.java:1169-1195 | a reading is forwarded only unpaused, from a node and sensor registered before, to the address last set: never from an auto-added node without one |
| Registry.ForwardedIff | toolkit/ControlPanel/src/CrossingReality/ControlPanel.java:1164-1195 | if nothing fails, a reading is forwarded to an address exactly if node and sensor are registered, the node has that address and forwarding is not paused |
| Registry.RegisteredIff | toolkit/ControlPanel/src/CrossingReality/ControlPanel.java:699-751 | if nothing fails, exactly which steps register a node and which remove it |
| Registry.SensorRegisteredIff | toolkit/ControlPanel/src/CrossingReality/ControlPanel.java:823-901 | if nothing fails, exactly which steps register a sensor and which remove it |
| Registry.IgnoredStaysOut | toolkit/ControlPanel/src/CrossingReality/ControlPanel.java:713-717 | an ignored node stays unregistered, whatever fails, until it is added by hand or the session ends |
| Registry.IgnoredSensorStaysOut | toolkit/ControlPanel/src/CrossingReality/ControlPanel.java:835-840 | an ignored sensor stays unregistered, whatever fails, until one of that name in any case is added by hand or the session ends |
| Registry.UnlistKeepsOthers | toolkit/ControlPanel/src/CrossingReality/ControlPanel.java:1860-1865 | taking one sensor off the list leaves every sensor of another name on it |
| Registry.OtherRowsStay | toolkit/ControlPanel/src/CrossingReality/ControlPanel.java:2068-2122 | a step that neither names a sensor nor removes its node leaves its row as it was |
| Registry.OtherNodesStay | toolkit/ControlPanel/src/CrossingReality/ControlPanel.java:2000-2059 | a step that does not name a node leaves its registration and address as they were |
| Registry.RemoveFirstLeaves | toolkit/ControlPanel/src/CrossingReality/ControlPanel.java:1717-1720 | removing one occurrence from a list without repeats removes the node altogether |
| RegistryEffects.AddressIff | toolkit/ControlPanel/src/CrossingReality/ControlPanel.java:1634-1756 | if nothing fails, a node has an address exactly if it was just added or updated with it, or had it and was neither removed nor updated |
| RegistryEffects.RowAfter | toolkit/ControlPanel/src/CrossingReality/ControlPanel.java:915-1162 | if nothing fails, exactly what a row holds after a step: nothing if it is new or reset, its bounds moved just enough by a reading with calibration on, otherwise what it held |
| RegistryEffects.IgnoredCount | toolkit/ControlPanel/src/CrossingReality/ControlPanel.java:2006-2009 | if nothing fails, how often a node is on the ignore list: once more after a removal with the box checked, once less when it is added by hand, never after a restart |
| RegistryEffects.IgnoredSensorCount | toolkit/ControlPanel/src/CrossingReality/ControlPanel.java:2068-2080 | the same for the list of ignored sensors, whose entries are compared without regard to case |
| RegistryEffects.SameSensorIff | toolkit/ControlPanel/src/CrossingReality/SensorIgnoreIdTypeObject.java:38-41 | two entries of that list count as one sensor exactly if their letters differ in nothing but case |
| RegistryEffects.ChecksAfter | toolkit/ControlPanel/src/CrossingReality/ControlPanel.java:2054-2055 | only the user changes a check box, but for the two removals, which uncheck their own when they succeed |
| RegistryEffects.SensedOutcome | toolkit/ControlPanel/src/CrossingReality/ControlPanel.java:699-1195 | if nothing fails, exactly why a reading is not forwarded, in the order of the handler's tests |
| RegistryEffects.RefusedIff | toolkit/ControlPanel/src/CrossingReality/ControlPanel.java:1634-1871 | what the panel refuses, exactly, leaving everything as it was; whatever else the user asks for is done |
| RegistryEffects.FailsWith | toolkit/ControlPanel/src/CrossingReality/ControlPanel.java:638-2439 | a handler fails with the first of the statements it would send, in order, that fails; faults of other statements change nothing |
| RegistryEffects.LeftBehind | toolkit/ControlPanel/src/CrossingReality/ControlPanel.java:638-2439 | exactly what a failed step leaves: the tables as before but for a node deleted without its sensors and a lower bound already moved, and a list changed if the handler changes it first |
| Registry.ControlPanel.Sensed | toolkit/ControlPanel/src/CrossingReality/ControlPanel.java:638-1196 | the handler, statement by statement, is Apply |
| Registry.ControlPanel.Calibrate | toolkit/ControlPanel/src/CrossingReality/ControlPanel.java:915-1162 | the calibration part is AfterCalibration, also where a statement fails |
| Registry.ControlPanel.ManualNodeAdd | toolkit/ControlPanel/src/CrossingReality/ControlPanel.java:1634-1756 | the handler is Apply: refused for an empty or known id or a bad address, else off the ignore list and registered, with exactly the address given (AddressIff) |
| Registry.ControlPanel.ManualSensorAdd | toolkit/ControlPanel/src/CrossingReality/ControlPanel.java:1761-1871 | the handler is Apply: a new row, and then off the list of ignored sensors |
| Registry.ControlPanel.RemoveNode | toolkit/ControlPanel/src/CrossingReality/ControlPanel.java:2000-2059 | the handler is Apply: the ignore list first, then the node, then its sensors |
| Registry.ControlPanel.RemoveSensor | toolkit/ControlPanel/src/CrossingReality/ControlPanel.java:2068-2122 | the handler is Apply: the list of ignored sensors first, then the row |
| Registry.ControlPanel.ResetCalibration | toolkit/ControlPanel/src/CrossingReality/ControlPanel.java:2385-2439 | the handler is Apply |
| Registry.ControlPanel.UpdateAddress | toolkit/ControlPanel/src/CrossingReality/ControlPanel.java:2240-2301 | the handler is Apply |
| Scale.InParts | demo/tinyos-2.1.0/tos/system/scale.h:15-19 | the quotient of the product is the sum of the two partial quotients |
| Scale.RemainderFits | demo/tinyos-2.1.0/tos/system/scale.h:18 | if a * b fits a word the product of the remainder does not wrap |
| Scale.ScaleIsQuotientIff | demo/tinyos-2.1.0/tos/system/scale.h:13-20 | for any words the result is floor(x * a / b) modulo 2^32 exactly if the product of the remainder fits a word |
| Scale.ScaleIsQuotient | demo/tinyos-2.1.0/tos/system/scale.h:4-20 | if a * b fits a word the result is floor(x * a / b) modulo 2^32 |
| Scale.ScaleIsExactIff | demo/tinyos-2.1.0/tos/system/scale.h:4-20 | it is floor(x * a / b) exactly if that fits a word |
| Scale.TooLargeAFraction | demo/tinyos-2.1.0/tos/system/scale.h:5-6 | the fractions that scale every number rightly are exactly those with (b - 1) * a in a word; the others scale b - 1 wrongly |
| Scale.RoundTrip | demo/tinyos-2.1.0/tos/system/scale.h:4-20 | scaling there and back loses exactly the first remainder over a, rounded up, so at most (b - 1) / a rounded up |

## Left out

- SerialHost.Serial.Write: time, sequence of reads and end of input are given as inputs; inputs that end while a write is still trying give StillTrying, which the source cannot return.
- Framing.Port.Read: the end of the bytes given stands for a timeout; the socket and the port object behind it are not modelled.
- PacketSchema.Packet.Unpack: bit groups are modelled on bytes and integers on numbers.
- PacketSchema.Packet.Pack: a value of the wrong kind, or bits too wide for their place, gives None, where Python would raise or build a list element that is not a byte.
- PacketSchema.RoundTripsIff: excludes 'string' fields, which pack characters and not bytes, a second unsized blob, and bit groups that do not fill a byte: packing clears such a byte's unused bits, and unpacking reads the next field that is not a bit group from that same byte (`PacketNumbers.UnfilledByteIff`).
- Crc16.TableCrcByte: models the C form of the table lookup; the inline assembly selected by default is not part of this model.
- SampleStore.Node.Update: assumes a message brings as many readings as the constant says, as its generated class does; int overflow is shown not to occur with 16-bit counts, not modelled.
- Oscilloscope.MoteTable.NewNode: requires a mote not yet in the table, which Data.Update guarantees; the color counter's wrap after 2^31 motes is not modelled.
- Registry.ControlPanel.Sensed: the database compares ids and types exactly; the list of ignored sensors compares them without regard to the case of ASCII letters only; quotation marks in them are not modelled.
- Registry.ControlPanel.RemoveNode: a failed statement leaves the database as it was; loss of the connection after a statement took effect is not modelled.
- Registry.RegistryStaysConsistent: takes the panel's selection boxes to offer only registered rows.
- Exactly-once delivery is not claimed: a retried frame may be accepted twice.
- The mote's side of the serial link, the nesC applications and the radio stack.
- `Serial.read`'s retry loop, `get_seqno_sent_times`, `__contains__` and `SFClient`: queries and wrappers over what is modelled, or sockets.
- Warnings, debug output, the write counters and the text fields of the windows.
- Threads: each handler is one atomic step.
- Drawing, the y-axis and axis ticks of the graph, and the scaling of forwarded readings, which are floating point; the HTTP delivery of a forwarded reading.
- The truncation to 16 bits of the version in an interval broadcast.
- Actuators, saved settings, the simulators, and the database driver with its own suite.
- LineDamage.ShortBurstRejected: takes the bits of each byte most significant first, as the CRC does; the order in which a serial port sends the bits of a byte is not modelled. In any order, damage to two adjacent bytes is covered by TwoBytesDamaged.
- WriteProgress.LosslessWriteEnds: needs a buffer of at least one packet, as with none a packet of the mote ends the write with an exception, and attempts no longer than the tracker keeps a number.
- A circular queue of size 0, beyond SizeZeroKeepsNothing.

# Aaru Remote Server: a verified model

The Aaru Remote Server lets a client on another machine talk to disc drives and cards. One loop accepts a
client, sends a hello, expects one back, and then answers request packets on a raw TCP byte stream: it peeks a
16-byte header, handles the packet or sets a flag to throw it away on the next turn, calls a device backend and
builds a reply of variable length in host byte order plus swaps.

The model has two layers.

* **The simple server** (`server.dfy`): a pure function from the state kept between packets (open device, kernel
  view, the four `error_no` bytes of the one NOP packet that is reused for ever) and one packet to the next state
  and the reply. `Run` folds it over a client's packets, `Serve` over all clients.
* **The machine** (`worker.dfy` on `network.dfy`, `buffers.dfy`, `replies.dfy`, `multisdhci.dfy`, `listdevices.dfy`,
  `ata.dfy`, `devices.dfy`): `WorkingLoop` and the code below it, with arrays filled in place, explicit byte order, a
  `recv` that returns any positive chunk, `skip_next_hdr`, and a ledger `live` of the blocks allocated and not freed.

`Worker.WorkingLoop` ties them: for every sequence of clients, every list of well-formed packets each sends and every
way `recv` cuts its bytes, each client is written the hello and then the replies of the simple server, the state
running on from client to client; every block is freed exactly once. A stream may end, go on with bytes that are no
packet, or break off inside a packet whose body nobody reads; `Streams.FairIff` says which bytes are covered. One thing
is asked of the order of the packets: SCSI only under an OPEN that succeeded (`sense.dfy`, `scsihistory.dfy`).
`answers.dfy` says in the numbers on the wire, without naming the functions of the simple server, which packet type
gets which answer, what the backend is handed for it and what of the result the client reads. `guarantees.dfy`,
`byteorder.dfy` and `roundtrip.dfy` prove what else that buys: the output parses back into one reply per request, the
device and the descriptor table are a function of the packet history, the host's byte order shows only in named bytes
of named replies (or exactly when not even there), payloads are routed to the right command. `life.dfy` puts these
together for the whole life of the process: `Life.PlatformLoop`. `multicopy.dfy`, `framing.dfy`, `sysfs.dfy` and
`hex.dfy` treat the copy loop of the multi-SDHCI reply, termination over arbitrary bytes, the sysfs walks and the hex
parser.

Modelling choices:

* Backends, kernel calls and `recv` are values chosen from outside: functions of a tick that counts the calls made,
  so any behaviour over a run, deterministic or not, is one of them. They stay inside the buffers they are given and
  set every out-parameter, except that SendScsiCommand without a device leaves the sense pointer alone, as
  `linux/scsi.c` does. Every call may leave any errno behind, a successful one too; an errno is below 256.
* The descriptor table holds what opening devices handed out and the streams GET_PCMCIA_DATA opens and leaves open; of
  the calls behind the other requests the source closes what it opens. Sockets are not in the table; a new descriptor
  may have any number not in it.
* Memory from `malloc` holds arbitrary bytes. Several arms never set the two spare header bytes, so replies are
  compared by `Canonical`, which blanks exactly those two. Where the multi-SDHCI copy leaves old bytes in the reply
  area, `Backend.Leftover` says what they were.
* `char` is signed or not by a parameter, byte order is a parameter, `packet_type` is a byte read as `int8_t`.
* Well-formed (`FrameOk`) means: inner lengths stay inside the packet, a device path has its NUL, sizes fit `int32_t`,
  and the multi-SDHCI copy, which uses one length for all, stays inside request and reply (`MultiCopy.SafeWhen` says
  when). A client's hello has its 980 bytes with a NUL in the last string. The source checks none of these.
* Each arm stores its reply front to back; the source sets independent fields in other orders.

Where the source does not do what it seems to mean, the code was followed and the condition proved:

* SCSI without an open device frees a freed or unset sense pointer (`SensePointer.SenseRunIff`,
  `ScsiHistory.ShortestFailures`);
* multi-SDHCI copy with command 0's length (`MultiCopy.ShippedIffUniform`, `RoundTrip.MultiRightIffUniform`);
* 16-bit lengths sent through `htole32` are always 0 from a big-endian host (`HostOrder.MisSizedLoses`);
* `feature` of an LBA48 request is not swapped (`RoundTrip.FeatureRead`);
* `error_no` after OPEN, USB and FireWire identifiers and AM_I_ROOT are sent in host order (`HostOrder.OpenAgrees`,
  `HostOrder.UsbAgrees`, `HostOrder.FireWireAgrees`, `HostOrder.AmIRootAgrees`);
* a split peek repeats leading bytes (`Network.PeekIsPrefixIffWhole`);
* a header with length 0 hangs the loop (`Framing.ZeroLengthNeverEnds`);
* OPEN drops an open device without closing it, GET_PCMCIA_DATA closes nothing it opens
  (`Guarantees.DescriptorsAccounted`, `Guarantees.PcmciaLeaves`, `Sysfs.WalkPcmcia`);
* the device is given a CDB of 256 bytes or more cut to its length modulo 256 (`Backend.WholeCommand`);
* a NOP carries the `error_no` of an earlier OPEN or REOPEN, even another client's (`Guarantees.ErrorDecidedByLast`);
* the sense guard accepts more than the 09h/0Ch descriptor (`Ata.AcceptedIsDescriptor`, `Ata.FixedSenseMisread`);
* with signed `char` the 16-bit count of sense data can come out 100h low (`Ata.SenseRoundTrip`);
* 65536 or more devices overflow the list reply (`ListDevices.ListReplyCut`).

## Model

| member | source | states |
|---|---|---|
| Life.PlatformLoop | unix/unix.c:27 | from a fresh server, for all clients, packets with SCSI only under a successful OPEN, recv chunkings, kernels and backends: every client's bytes parse into the hello and one reply per packet that asks; the final state is one run over all packets heard, its device decided by the last OPEN or CLOSE, its error_no by the last OPEN or REOPEN, device descriptors and streams accounted for |
| Life.TranscriptsAlike | worker.c:164-1314 | the same packets to two servers of different byte order: what each client reads out of the two transcripts differs in the bytes of HostOrdered only |
| Life.SameUnderOpen | worker.c:405-411 | the condition on SCSI packets does not depend on byte order |
| WorkerLoop.Worker.WorkingLoop | worker.c:146-1316 | for all clients, well-formed packets and recv chunkings, with streams that end, go on with no packet or break off inside a packet whose body is not read, the packets written to client i are the hello and the encoded replies of its session; the state and the sense pointer are those of the folds over all clients; only pkt_nop is allocated at each accept; every SCSI packet must meet an open device |
| Answers.AnswerByType | worker.c:305-1314 | types 5, 7, 9, 11, 13, 15, 17, 19, 21, 23, 26, 28 and 31 get one reply of type t + 1; 2 gets type 3, or the NOP of reason 3 exactly for an empty list; 4 and 30 a NOP; 25 nothing; a hello or one of eleven responses the NOP of reason 0, every other type that of reason 2, with their texts, and these change nothing |
| Answers.PendingByType | worker.c:298-1314 | the packet is left pending exactly for a foreign version, type 25 and the refused types; bodies are looked at exactly for types 4, 5, 7, 9, 11, 13, 28 and 31 |
| Answers.ForeignVersion | worker.c:298-303 | packets of another version change nothing and get nothing |
| Answers.HeardByHello | worker.c:204-218 | a client is heard exactly when its first packet has version 1 and type 1, and then from the second packet on |
| Answers.OpenAnswer | worker.c:405-411 | OPEN: reason 4 exactly when the open for writing, or after EACCES or EROFS the one for reading, succeeds, and then a device under the resolved path cut to 4096; else 5, no device and the errno of the last open tried |
| Answers.OpenAnswerInRun | worker.c:405-411 | in every run the answer to an OPEN says 4 exactly when a device is open behind it |
| Answers.ReOpenAnswer | worker.c:1209-1225 | REOPEN: reason 6 exactly when the close and one of the two opens of the context's path succeed, else 5; error_no 0, the errno of what failed, or all ones without a device |
| Answers.CloseAnswer | worker.c:1048-1052 | CLOSE: nothing sent, the device's number out of the table and forgotten |
| Answers.ScsiAnswer | worker.c:466-535 | SCSI: the kernel is handed the client's command, data and timeout, and FROM_DEV for direction 2, TO_DEV for 1, both for 3 and -1, else none; the client reads what the kernel gave back, error and sense included |
| Answers.Ata48EndToEnd | linux/ata.c:193-277 | LBA48 on any host: every 48-bit LBA, count and command and the transfer asked for arrive in the CDB, the feature exactly on little-endian hosts or with equal bytes; direction by protocol; the client reads registers, sense flag, data and error as the kernel's result determines them |
| Answers.Descriptor48 | linux/ata.c:260-272 | the registers read from a status descriptor are its own, exactly for unsigned char or a low count byte below 80h |
| Answers.Ata28EndToEnd | linux/ata.c:41-191 | the same for LBA28 and CHS on every host: every 28-bit LBA arrives |
| Answers.Descriptor28 | linux/ata.c:100-109 | the registers read from a status descriptor are its own |
| Answers.Ata48NoDevice | linux/ata.c:208-215 | without a device: -1, no registers, no sense, the client's own data |
| Answers.Ata28NoDevice | linux/ata.c:56-60 | the same for LBA28 and CHS |
| Answers.SdhciAnswer | worker.c:970-1047 | single SDHCI: command and data reach the backend under the open context, its result the client |
| Answers.MultiAnswer | linux/sdhci.c:240-295 | multi-SDHCI: the ioctl gets every command and its payload; every slot carries the errno of the ioctl, its response words and sense 1 only for a negative result; payloads as the device left them for equal lengths; without a device -1, zero words and the client's payloads |
| Answers.OsReadAnswer | linux/device.c:378-396 | OSREAD: seek to the client's offset and read; the bytes read and zeros behind, or the errno of what failed and zeros, or -1 without a device |
| Answers.ListAnswer | worker.c:315-373 | LIST_DEVICES: the number of devices and record i is device i; the error NOP exactly for none |
| Answers.DevTypeAnswer | worker.c:447 | the device type the backend gives |
| Answers.RegistersAnswer | worker.c:566-611 | the four registers the backend gives, each cut to its field |
| Answers.UsbAnswer | worker.c:645-662 | the USB data the backend gives, at their offsets |
| Answers.FireWireAnswer | worker.c:691-704 | the FireWire data |
| Answers.PcmciaAnswer | worker.c:733-742 | the PCMCIA data, and the streams left open |
| Answers.AmIRootAnswer | worker.c:1077-1083 | the 32-bit answer as the host stores it |
| WorkerLoop.Worker.ServeClient | worker.c:148-316 | one accept: connection made, hello sent, session run, pkt_hdr freed |
| WorkerLoop.Worker.Greet | worker.c:178-250 | a client is heard only after a version-1 hello; otherwise it sees nothing more and the state is untouched |
| WorkerLoop.Worker.TakeHello | worker.c:220-239 | a hello that breaks off ends the session with both blocks freed and nothing changed; a whole one starts the commands |
| WorkerLoop.Worker.HelloStrings | worker.c:241-245 | each of the five strings stands at its offset and ends with a NUL inside the hello |
| WorkerLoop.Worker.CommandLoop | worker.c:250-315 | the lazily skipping loop writes the replies of the fold over the client's packets, the last of which may be cut short, terminates by unread bytes then pending skip, and frees pkt_hdr; at its head the sense pointer points to no allocated block and is what SensePointer.SenseRun says |
| WorkerLoop.Worker.NextHeader | worker.c:254-296 | a pending packet is consumed exactly once, as far as the stream has it; afterwards the cursor stands behind the packets handled, and the loop stops exactly when no packet is left |
| WorkerLoop.Worker.HandleNext | worker.c:298-1314 | each iteration keeps the loop invariant and either consumes the packet, as far as the stream has it, with no skip or nothing with a skip |
| WorkerLoop.Worker.Dispatch | worker.c:298-1314 | every arm has the effect of its step; skip_next_hdr is set exactly for foreign versions, CLOSE_DEVICE and packets outside the known requests |
| WorkerLoop.Worker.PeekHeader | worker.c:271-287 | the peek consumes nothing and shows the true header, or repeated bytes when fewer than 16 are left |
| WorkerLoop.Worker.MagicSeen | worker.c:289-290 | comparing host words with swapped constants is comparing the eight magic bytes, on either host |
| WorkerLoop.Worker.Receive | worker.c:319-330 | a block of hdr.len bytes that begins with what the stream still has of the packet: all of it unless the stream breaks off |
| WorkerLoop.Worker.Open | worker.c:392-414 | reply and state of OPEN; the request is freed |
| WorkerLoop.Worker.Reopen | worker.c:1196-1231 | reply and state of REOPEN with its three outcomes |
| WorkerLoop.Worker.Close | worker.c:1048-1052 | the device is closed and forgotten, nothing is written or consumed |
| WorkerLoop.Worker.List | worker.c:315-373 | LIST_DEVICES reply or the error NOP; every list node, the first small block and the reply are freed |
| WorkerLoop.Worker.SendScsiCommand | linux/scsi.c:24-80 | with a device the SG_IO header with the length cut to a char, and a fresh sense block holding the sense data; without one -1 and sense_len 32, the sense pointer as it was |
| Backend.WholeCommand | linux/scsi.c:62 | the device is given the client's command if and only if it is shorter than 256 bytes |
| WorkerLoop.Worker.Scsi | worker.c:452-541 | SCSI arm under an open device: state, reply, consumption, and all blocks freed, the sense block through the pointer that outlives the packet |
| SensePointer.SenseRunIff | worker.c:491-540 | over any run the sense pointer is read and freed only while it points to a block if and only if every SCSI packet meets an open device |
| ScsiHistory.ScsiHasDeviceIff | linux/scsi.c:40-48 | that condition on the packets: before each SCSI packet the last OPEN or CLOSE of the history is an OPEN that succeeded |
| ScsiHistory.ScsiServedIff | worker.c:146-252 | the condition client by client is the condition on all packets heard as one history |
| ScsiHistory.ScsiAfterCloseFails | worker.c:518-540 | every history with a SCSI packet after a CLOSE and no OPEN between misuses the pointer |
| ScsiHistory.ShortestFailures | worker.c:518-540 | SCSI as first packet, and OPEN of /dev/sda, SCSI, CLOSE, SCSI, misuse it whatever kernel and devices do |
| ScsiHistory.SenseServedIsOneRun | worker.c:87-541 | the pointer WorkingLoop ends with is that of one run over all packets heard |
| WorkerLoop.Worker.Ata28 | worker.c:747-891 | CHS and LBA28 arms, including the arm that decodes with htole32 and the one that encodes with le32toh |
| WorkerLoop.Worker.Ata48 | worker.c:892-969 | LBA48 arm with its swapped count and unswapped feature |
| WorkerLoop.Worker.SdhciOne | worker.c:970-1047 | single SDHCI arm |
| WorkerLoop.Worker.Multi | worker.c:1088-1195 | multi-SDHCI arm for equal and unequal payload lengths: the reply with the payload area the shipped copy leaves |
| WorkerLoop.Worker.SdhciRegisters | worker.c:542-620 | registers arm, the four backend blocks freed |
| WorkerLoop.Worker.ReadDevice | worker.c:1232-1295 | OSREAD arm |
| WorkerLoop.Worker.SendNop | worker.c:308-311 | pkt_nop rewritten in place is the NOP with that reason and text and the error_no it already had |
| Network.NetRecv | unix/network.c:119-140 | without peek: exactly the next min(len, rest) stream bytes in order, however recv chunks them; with peek: the cursor stays and the buffer holds Peeked |
| Network.PeekIsPrefixIffWhole | unix/network.c:128-137 | a peek shows the true prefix of every stream if and only if its first recv returns all bytes asked for |
| Streams.PeekRepeats | unix/network.c:128-137 | a peek past the end of the stream shows the remaining bytes over again |
| Streams.DeliversAt | worker.c:252-271 | behind the first k packets of a stream the stream goes on with the others |
| Streams.WireDelivers | worker.c:252-271 | packets one after another and then an end or no packet are taken as those packets |
| Streams.CutDelivers | worker.c:254-269 | so are packets followed by a piece of one whose body is not read |
| Streams.FairIff | worker.c:254-314 | the streams that are taken as well-formed packets are exactly those in which every header come to announces 16 bytes or more, within int32_t, and packets that are looked into are whole and well-formed |
| Packets.OutputParses | worker.c:138-144 | a concatenation of packets that are replies up to spare bytes parses uniquely into those replies |
| Guarantees.RepliesPaired | worker.c:298-1314 | reply n answers the n-th packet that asks for one, and only CLOSE_DEVICE and foreign versions ask for none; every length fits int32_t |
| Guarantees.StepReply | worker.c:305-1314 | a reply is a NOP or has the type after its request's |
| Guarantees.TranscriptParses | worker.c:164-1314 | everything written to a client after the hello parses into exactly its session's replies |
| Guarantees.ServeIsOneRun | worker.c:87-252 | connects and disconnects change nothing: the state is that of one run over all packets heard |
| Guarantees.DeviceDecidedByLast | worker.c:405-411 | the device in use is decided by the last OPEN or CLOSE of the whole history |
| Guarantees.DescriptorsAccounted | linux/device.c:33-80 | descriptors of devices are those from before, plus the current device's, plus one per OPEN that displaced an open device; streams are those GET_PCMCIA_DATA left open less those a stale close struck; REOPEN adds none |
| Guarantees.PcmciaLeaves | linux/pcmcia.c:79-100 | OPEN, GET_PCMCIA_DATA, CLOSE: the streams stay although nothing was displaced |
| Guarantees.NoLeak | linux/device.c:33-80 | with no device open at the end, the table is as before if and only if no OPEN displaced an open device and every stream left open was struck again |
| Guarantees.NoneStruck | linux/device.c:355-376 | while the closes of REOPEN succeed no close ever hits a stream |
| Guarantees.NoLeakWhileClosesWork | linux/device.c:33-80 | then the table is as before if and only if no OPEN displaced a device and no GET_PCMCIA_DATA left a stream |
| Guarantees.ErrorDecidedByLast | worker.c:409-411 | error_no of every NOP is that of the last OPEN or REOPEN of the whole history |
| Guarantees.ReOpenCount | linux/device.c:355-376 | REOPEN keeps the number of descriptors apart from the context's own and never touches others |
| Devices.DeviceOpen | linux/device.c:33-69 | open read-write, then read-only on EACCES or EROFS; the context holds the resolved path |
| Devices.OpensWhen | linux/device.c:53-62 | exactly when an open succeeds |
| Devices.OpenResult | linux/device.c:55-64 | the errno a failed open leaves, and the path a device is stored under |
| Devices.ReOpensWhen | linux/device.c:355-376 | exactly when REOPEN succeeds, and its result when it does not |
| Devices.DeviceClose | linux/device.c:71-80 | close as a descriptor-table operation |
| Devices.ReOpen | linux/device.c:355-376 | close then open in place, with the close-failed flag |
| Devices.OsRead | linux/device.c:378-396 | seek and read into the zeroed buffer, with errno results |
| MultiCopy.ShippedIffUniform | worker.c:1184-1188 | the shipped copy stays in bounds and reproduces every content of the payload area if and only if all lengths equal command 0's, whatever follows the area in the request and whatever the reply held |
| MultiCopy.SafeWhen | worker.c:1184-1188 | it stays in bounds exactly when count times the first length fits the area and one more first length fits behind all payloads but the last |
| MultiCopy.IntendedIsSource | worker.c:1131-1146 | copying by each command's own length reproduces the contiguous payload area |
| MultiCopy.UnequalFails | worker.c:1184-1188 | for unequal lengths in bounds, a payload area that comes out wrong |
| Sdhci.RequestRoundTrip | worker.c:1103-1138 | every command and payload of every multi-SDHCI request is read back |
| Sdhci.PayloadsTile | worker.c:1131-1138 | payload slices are pairwise disjoint and tile the bytes behind the command table |
| MultiSdhci.DecodeMulti | worker.c:1119-1138 | the two decoding loops give every command its fields and the prefix-sum pointer |
| MultiSdhci.SendMulti | linux/sdhci.c:240-295 | ioctl entry i carries command i, response i comes back to command i |
| MultiSdhci.ReplySize | worker.c:1143-1146 | the size loop gives 24+32*count plus the sum of the lengths |
| MultiSdhci.CopyPayloads | worker.c:1181-1188 | the shipped in-place loop is Shipped, from the request's payload area and what follows it to the reply's |
| Replies.BuildMulti | worker.c:1148-1188 | the reply packet: count, slots, and the shipped copy over what the block held |
| Replies.BuildList | worker.c:345-366 | the list reply, offset ending at the allocated size |
| Replies.BuildAta28 | worker.c:800-813 | reply bytes independent of host order although decoded with htole32 |
| Replies.BuildScsi | worker.c:517-533 | reply bytes in wire order on either host |
| RoundTrip.MultiReplyRoundTrip | worker.c:1160-1188 | a client splitting by the declared lengths recovers slots and payloads; exact length |
| RoundTrip.MultiRightIffUniform | worker.c:1160-1188 | for each request the reply holds every payload area the device can leave if and only if all lengths are equal |
| RoundTrip.MultiRouting | worker.c:1101-1190 | fields, slice, response words and payload of command i stay with command i from wire to ioctl and back to the reply meant, which is the reply sent when the lengths are equal |
| RoundTrip.ScsiRequestRoundTrip | worker.c:466-501 | the handler passes on exactly the client's CDB and data, for all lengths; the device is given that CDB exactly below 256 bytes |
| RoundTrip.ScsiReplyRoundTrip | worker.c:517-535 | a client splitting by sense_len and buf_len recovers sense data and buffer |
| RoundTrip.FeatureRead | worker.c:917-918 | an LBA48 request is read with feature swapped on a big-endian host, and as packed if and only if the host is little-endian or the two bytes are equal |
| RoundTrip.Ata48ReplyRoundTrip | worker.c:946-964 | LBA48 reply fields read back at their offsets |
| RoundTrip.Ata28ReplyRoundTrip | worker.c:871-886 | CHS and LBA28 reply fields read back |
| RoundTrip.SdhciReplyRoundTrip | worker.c:1022-1042 | single SDHCI reply read back |
| RoundTrip.RegistersReplyRoundTrip | worker.c:582-611 | each register clamped to its field and reported with the clamped length |
| RoundTrip.OsReadReplyRoundTrip | worker.c:1278-1290 | errno and exactly the asked number of bytes |
| RoundTrip.NopReplyRoundTrip | worker.c:308-311 | reason, text and error_no read back at their offsets, padding zero |
| RoundTrip.DecimalRoundTrip | worker.c:1305-1308 | a printed number reads back |
| RoundTrip.PrintedTypeRoundTrip | worker.c:1305-1308 | every packet type reads back from its text, with a minus exactly from 80h on |
| Ata.Cdb48Carries | linux/ata.c:216-246 | section 12.2 of SAT-2 reads the CDB back as LBA, feature, count, device, command, protocol, with EXTEND and CK_COND, and T_LENGTH, BYT_BLOK and T_DIR as the client's three transfer parameters say |
| Ata.DirectionMatchesCdb | linux/ata.c:23-39 | the kernel is told to read from the device exactly when T_DIR is set, if a transfer register is named |
| Ata.DirectionByProtocol | linux/ata.c:23-39 | protocols 4 and 10 read, 5 and 11 write, 0, 1, 3, 8, 9 and 15 move nothing, the others both |
| Ata.SenseFlagBits | linux/ata.c:274 | the sense flag is 1 exactly for an error register other than 0 or bit 7, 5, 2 or 0 of the status |
| Ata.Cdb28IsUnextended48 | linux/ata.c:139-163 | the LBA28 CDB is the zero-extended LBA48 CDB with EXTEND clear; CHS differs only in byte 2 |
| Ata.Cdb28Carries | linux/ata.c:62-163 | every 28-bit LBA reads back from the CDB, 24 bits from the LBA field and four from the device register, with the transfer asked for |
| Ata.Cdb28Registers | linux/ata.c:62-163 | section 12.2 of SAT-2 reads the CHS and LBA28 CDBs back register by register, EXTEND clear, CK_COND for LBA28 only |
| Ata.Sense28RoundTrip | linux/ata.c:100-109 | status descriptors decode back for CHS and LBA28, signed char or not |
| Ata.SenseRoundTrip | linux/ata.c:260-272 | status descriptors decode back; with signed char exactly when the low count byte is below 80h, else 100h low |
| Ata.AcceptedIsDescriptor | linux/ata.c:260 | what the guard accepts is the encoding of some status descriptor if and only if both identifying bytes are right |
| Ata.FixedSenseMisread | linux/ata.c:260-274 | fixed-format sense data with 09h in byte 8 is accepted: the client gets a count register nobody sent and a cleared sense flag |
| Ata.SendAta28 | linux/ata.c:41-191 | CDB filled in place, sent, error registers unpacked or left zero |
| Ata.SendAta48 | linux/ata.c:193-277 | the same for LBA48 |
| Endian.BSwapReverses32 | endian.h:31-35 | the macro reverses the four bytes |
| Endian.BSwapReverses64 | endian.h:37-43 | the macro reverses the eight bytes |
| Endian.BSwapInvolution32 | endian.h:31-35 | swapping twice is the identity |
| Endian.BSwapInvolution64 | endian.h:37-43 | swapping twice is the identity |
| Endian.BSwapInvolution16 | endian.h:27-29 | swapping twice is the identity |
| Endian.StoreLe32Image | endian.h:63-79 | storing htole32(x) leaves the little-endian bytes in memory on either host |
| Endian.StoreLe64Image | endian.h:81-97 | the same for 64 bits |
| Endian.LoadLe32 | endian.h:63-79 | le32toh of a wire field is its little-endian value on either host |
| HostOrder.StepAlike | worker.c:305-1314 | one packet, from states with the same device and kernel, leads both hosts to such states again and to replies equal but for the bytes of HostOrdered |
| HostOrder.RunAlike | worker.c:252-314 | the same for whole runs of any packets, except LBA48 requests whose feature has unequal bytes |
| HostOrder.ServeAlike | worker.c:146-252 | the same for all clients of a server |
| HostOrder.OpenAgrees | worker.c:405-409 | the OPEN reply agrees exactly when the open that succeeded left errno 0; never when OPEN fails |
| HostOrder.UsbAgrees | worker.c:651-662 | the USB reply agrees exactly when the descriptor length is 0 and both identifiers have equal bytes |
| HostOrder.FireWireAgrees | worker.c:697-704 | the FireWire reply agrees exactly when the three identifiers are fixed by the swap macros |
| HostOrder.PcmciaAgrees | worker.c:739-742 | the PCMCIA reply agrees exactly for an empty CIS |
| HostOrder.AmIRootAgrees | worker.c:1083 | the AM_I_ROOT reply agrees exactly for 0 |
| HostOrder.SameRequest48 | worker.c:917-918 | both hosts read the same LBA48 registers exactly when feature's two bytes are equal |
| HostOrder.MisSizedLoses | worker.c:661 | a 16-bit length through htole32 survives on little-endian hosts only |
| ListDevices.DeviceInfoListCount | list_devices.c:42-55 | the count is the list length modulo 65536 |
| ListDevices.FreeDeviceInfoList | list_devices.c:30-40 | every node is freed, once |
| ListDevices.CopyList | worker.c:359-366 | records copied in list order, final offset |
| ListDevices.ListReplyCut | worker.c:342-372 | cutting at 18+2052*i gives record i; count and size are right if and only if there are fewer than 65536 devices |
| Framing.EndsIffNeverStuck | worker.c:252-314 | over any finite byte stream the loop ends if and only if it never meets a packet header with length 0 or negative as int32_t |
| Framing.ZeroLengthNeverEnds | worker.c:252-271 | one zero-length header, of any type, makes it run for ever |
| Framing.FollowsPackets | worker.c:252-314 | over every stream the machine is proved on the skeleton stands after k iterations where the machine's loop invariant puts the cursor, with the same skip pending |
| Framing.PacketsEnd | worker.c:252-314 | and ends one iteration after the last packet |
| Sysfs.Walk | linux/usb.c:72-95 | terminates; finds the deepest non-empty proper ancestor with all files whose next-deeper path has the needle, or none exactly if there is none |
| Sysfs.WalkUsb | linux/usb.c:72-95 | the same for "usb" and its three files |
| Sysfs.WalkFireWire | linux/ieee1394.c:70-93 | the same for "firewire" and its three files |
| Sysfs.WalkPcmcia | linux/pcmcia.c:65-101 | stops at the deepest directory with a readable CIS; what stays open is one stream per pcmcia_socket directory opened on the way, and the CIS |
| Hex.Hexchr2Bin | hex2bin.c:22-35 | succeeds exactly on hex digits, with the digit's value |
| Hex.Hexs2Bin | hex2bin.c:37-59 | length/2 and bytes that print as the text up to case exactly for non-empty even-length hex text, else 0 |
| Hex.PrintInjective | hex2bin.c:52-57 | the printed text determines the bytes |

## Left out

- WorkerLoop.Worker.WorkingLoop: allocation failures are not covered; nor are a stream that breaks off inside an OPEN or a transfer, where the handler reads what malloc left, a header that announces fewer than 16 bytes or more than int32_t holds, and inner lengths that leave the packet, none of which the source checks; a peek is taken to get a whole header from its first recv.
- Network.NetRecv: a recv error counts as the end of the stream, and the NULL-context guard is not modelled; NetWrite writes all it is given.
- WorkerLoop.Worker.Scsi: the transfer buffer goes to the backend and comes back as a value, not by pointer; a SCSI packet without an open device is required away, since what the code then does with the sense pointer has no defined meaning (SensePointer.SenseRunIff: exactly then). Server.ScsiStep gives such a packet a reply nobody relies on.
- Replies.BuildMulti: requests for which the shipped copy leaves its buffers are required away.
- Devices.DeviceClose: an open descriptor is taken to be released even when close reports an error, as on Linux; sockets are not part of the descriptor table, so a stale close is taken never to hit one.
- MultiSdhci.SendMulti: the kernel is taken to stay inside the data area of the request; pointers are offsets into the request packet.
- Framing.EndsIffNeverStuck: the loop's framing alone, handlers reduced to what they consume; Framing.FollowsPackets ties it to the machine for the streams of Streams.FairIff only, since beyond them the machine is not defined.
- Sysfs.Walk: path lengths beyond 4096 and the reading of the files found are not modelled.
- Hex.Hexs2Bin: NULL arguments are not modelled, nor the block left allocated after a bad digit.
- linux/sdhci.c SendSdhciCommand and GetSdhciRegisters, the ioctl of linux/scsi.c, linux/pcmcia.c but for its walk, GetDeviceType and the ListDevices bodies: operating-system access; their results are inputs.
- The sense buffer linux/ata.c never frees and the contexts of DeviceOpen: the ledger covers the blocks of WorkingLoop only.
- Sockets, accept, bind and listen, hello construction, banners and printf.
- The freebsd, win32 and wii ports.

# Verified models of the radar controller firmware

Dafny models of the algorithmic core of an STM32F407 radar antenna controller: the parts of the lwIP
network stack, the SEGGER RTT debug channel and the motor application that carry state, wrap-around
arithmetic or concurrency. `dafny verify dfyconfig.toml` verifies all of them.

Each area has a specification (datatypes and functions), lemmas about it, and, where the C code works
by assignment, classes and methods over arrays and fields whose contracts tie them to the
specification.

| files | area |
|---|---|
| `InetChksum` | the internet checksum: three loops, segment chains, pseudo headers |
| `RttRing` | the RTT ring buffers, writer and reader interleaved |
| `RttPrintf`, `Numerals` | number printing |
| `CText` | `lwip_itoa` and the case-insensitive comparisons |
| `DnsNames`, `DnsTable`, `DnsSafety`, `DnsRuns`, `DnsStale`, `DnsRetry`, `DnsAnswers`, `DnsClient` | the DNS resolver |
| `SelectProtocol`, `SelectSafety`, `SelectRuns`, `SelectEvents`, `SelectList` | the wake-up protocol of `lwip_select` |
| `NetconnWrite`, `NetconnResults` | the resumable vectored TCP write |
| `Motor`, `MotorLoop`, `MotorRequests` | motion profile, 1 ms tick and main loop |
| `EthRxChain` | receive chains |
| `Crc8`, `CrcDivision` | the telemetry CRC |
| `Words` | machine words and `Option` |

## What the models assume

- Checksum: a little-endian host; `FOLD_U32T` adds the upper to the lower half, `SWAP_BYTES_IN_WORD`
  swaps the lower two bytes and drops the rest. `inet_def.h` is not part of this model. Lengths and
  addresses are numbers; an address matters only modulo 4. The chains have less than 2^16 bytes, the
  flat buffers of versions 1 and 2 at most 0x20000, as the comments in the source demand.
- RTT: one writer at a time; ring sizes from 2 to 2^31, below which no offset sum leaves 32 bits. The
  other side may act between any two accesses that matter to it. For `_WriteBlocking` the rounds
  observed, and those among them in which the host takes something, are parameters, because it spins
  for ever without a reader.
- Printing: bases 2 to 16, and numbers for which the source neither divides by 0 nor reads behind its
  table of digits. Whether the ring takes a full buffer is left open at each flush. What the ring takes
  of a buffer that it refuses in part is not counted as stored.
- DNS: `LWIP_DNS_SECURE` is 7, IPv4 only, default table sizes, callbacks that do not call the resolver.
  Whether a UDP pcb can be had, the random numbers that transaction IDs are drawn from and the verdict
  on a packet's content are parameters. Memory behind the NUL of a queried name is read as NUL.
- Select: one step is one region under `SYS_ARCH_PROTECT`, in the variant without core locking, with a
  semaphore for each call; any number of threads and of concurrent event callbacks. Sockets stay open,
  `lastdata` stays empty, `select_cb_ctr` does not come round, and RCVMINUS does not come below the least
  value of the 16-bit counter (the exact condition is one of the results). Which events come is left
  open: whether the stack can report that many more RCVMINUS than RCVPLUS is not part of this model.
- Write: the variant with core locking (`LWIP_TCPIP_CORE_LOCKING` is 1, the default), in which only a
  callback signals the end of a write. Each turn of the loop sees an arbitrary free send buffer and an arbitrary answer of `tcp_write`,
  which accepts a length of 0 unless the connection state is wrong (`lib/LwIP/src/core/tcp_out.c:316`).
  The total length is at most `SSIZE_MAX`, above which `api_lib.c` cuts it. `tcp_output` and the send
  timeout are parameters. Vectors may be empty.
- Motor: frequencies and times are rational. Where two accesses of the main loop could be told apart by
  the interrupt they are separate steps; the profile is calculated in one step, because the tick does
  nothing while the motor is stopped.
- Lengths and indices are plain numbers where the C types cannot overflow in the modelled range;
  `crc8_atm`, which counts its bytes in 8 bits, is modelled for messages of any length.

## Where the code does less than its documentation promises

Each of these is stated by a lemma with the exact condition, or with a concrete run.

- An overwriting RTT write that reaches the last cell of the second lap loses it
  (`RttRing.OverwriteRightIff`).
- A completed DNS entry is not reused while the number of queries started after its own is 255 modulo
  256 (`DnsRuns.StaleEntryIsNotReused`; a run that gets there is in `DnsStale.StaleEntryIsReached`).
- A name with a trailing dot is encoded so that the walks stop one byte short
  (`DnsNames.TrailingDotStopsShort`).
- A response name matches a query that has other characters in the place of its dots, or goes on behind its
  end (`DnsNames.FoundIffAgrees`).
- A blocking vectored write can spin with a full send buffer if a vector that is not the last has 2^16
  bytes or more (`NetconnWrite.StuckPossibleIff`).
- A receive counter that runs below its range wakes nobody who waits for data
  (`SelectRuns.EventKeepsPromiseIff`, `SelectRuns.CounterUnderflowLosesWakeUp`).
- A first request of 200 RPM or more starts the motor towards a frequency of 0
  (`Motor.ProfileRampsIff`, `MotorLoop.FrequencyInRangeIff`, `MotorRequests.FastFirstRequest`).
- A start command interrupted between its state and its rate may leave the start rate while cruising
  (`MotorLoop.CruiseRateIff`).
- A length of 0 does not stop `lwip_strnicmp`: it wraps and compares the whole strings
  (`CText.StrNICmp`).
- More than ten decimal or eight hexadecimal digits overflow the printer's place value, and some number
  is printed wrong or divided by 0 (`RttPrintf.PrintedRightIff`, `RttPrintf.PlaceFitsIff`).

## Model

| member | source | states |
|---|---|---|
| `InetChksum.HostSumIsRfcSum` | lib/LwIP/src/core/inet_chksum.c:125-173 | The little-endian sum that the loops compute is the byte-swapped one's-complement sum of the network-order words of section 2 of RFC 1071, for byte strings of any length. |
| `InetChksum.RfcSumIsOddSum` | lib/LwIP/src/core/inet_chksum.c:79-114 | Summing as if the data began at an odd address gives the network-order sum that the bytewise version works with before its final reordering. |
| `InetChksum.HostSumZero` | lib/LwIP/src/core/inet_chksum.c:125-173 | The sum before inversion is 0 only when every byte is 0; this pins which of the two one's-complement zeros comes out. |
| `InetChksum.ByteSumFits` | lib/LwIP/src/core/inet_chksum.c:129-173 | Up to 0x20000 bytes, at either address parity, the 32-bit sum of the 16-bit loops never wraps. |
| `InetChksum.FoldTwice` | lib/LwIP/src/core/inet_chksum.c:105-109 | Two folds bring any 32-bit sum to its one's-complement normal form; a third would change nothing. |
| `InetChksum.SwapOddSum` | lib/LwIP/src/core/inet_chksum.c:167-171 | After an odd start address, swapping the accumulator yields exactly the sum for an even one. |
| `InetChksum.StandardChksum1` | lib/LwIP/src/core/inet_chksum.c:79-114 | Version 1 returns the reference sum of the bytes for every buffer of at most 0x20000 bytes. |
| `InetChksum.StandardChksum2` | lib/LwIP/src/core/inet_chksum.c:132-173 | Version 2 returns the same value at every start address, so it agrees bit for bit with version 1. |
| `InetChksum.StandardChksum3` | lib/LwIP/src/core/inet_chksum.c:188-255 | Version 3 returns the same value at every start address, for any length: the carries given back lose nothing. |
| `InetChksum.AddWithCarry` | lib/LwIP/src/core/inet_chksum.c:213-225 | An addition that wraps in 32 bits, with its carry given back, keeps the one's-complement value of the sum. |
| `InetChksum.SumLongs` | lib/LwIP/src/core/inet_chksum.c:213-225 | The unrolled loop consumes whole groups of eight bytes and keeps the one's-complement value of what it has consumed. |
| `InetChksum.InetChksum` | lib/LwIP/src/core/inet_chksum.c:554-558 | The inverted reference sum of the bytes. |
| `InetChksum.ChainStep` | lib/LwIP/src/core/inet_chksum.c:575-583 | One fold after adding a segment always brings the accumulator under 2^16, so the swap for an odd length loses nothing and shifts the sum by one byte place. |
| `InetChksum.AddSegment` | lib/LwIP/src/core/inet_chksum.c:571-584 | One round of a chain loop adds the segment at the parity of its place in the whole packet. |
| `InetChksum.SumChain` | lib/LwIP/src/core/inet_chksum.c:567-587 | Over any chain, whatever the segment lengths and address parities, the accumulator ends as the sum of the concatenated bytes. |
| `InetChksum.InetChksumPbuf` | lib/LwIP/src/core/inet_chksum.c:567-588 | The checksum of a chain of any segmentation is bit for bit the one of its concatenated bytes. |
| `InetChksum.InetChksumPseudo` | lib/LwIP/src/core/inet_chksum.c:259-327 | The checksum is that of twelve bytes in front of the chain's bytes: both addresses as they lie in memory, a zero, the protocol, and the length in network order. |
| `InetChksum.HeaderInFront` | lib/LwIP/src/core/inet_chksum.c:259-294 | The two addresses, the protocol and the length, added as swapped words up front, count exactly as those twelve bytes laid in front of the data. |
| `InetChksum.SummedInFront` | lib/LwIP/src/core/inet_chksum.c:259-294 | Adding the sum of an even number of bytes up front gives the same checksum as laying them in front of the data. |
| `InetChksum.SumChainPartial` | lib/LwIP/src/core/inet_chksum.c:398-435 | The loop that stops at the given length sums exactly the prefix, although its swap test looks at the whole segment length. |
| `InetChksum.InetChksumPseudoPartial` | lib/LwIP/src/core/inet_chksum.c:398-473 | The checksum is that of the twelve header bytes in front of the byte prefix of the given length, wherever it cuts a segment, or of all bytes if there are fewer. |
| `InetChksum.StoredChecksumVerifies` | lib/LwIP/src/core/inet_chksum.c:259-294 | Writing the checksum into its zeroed field, at any even offset and over any segmentation, makes the receiver's recomputation 0. |
| `InetChksum.OneByteChangeIsSeen` | lib/LwIP/src/core/inet_chksum.c:567-588 | A change of one byte always changes the checksum. |
| `RttRing.PutExtends` | lib/SEGGER_RTT/SEGGER_RTT.c:425-478 | Bytes laid behind the unread ones become the newest unread bytes, as long as one cell stays free. |
| `RttRing.PutAppend` | lib/SEGGER_RTT/SEGGER_RTT.c:363-405 | Two chunks laid one behind the other, across the wrap-around, are one write. |
| `RttRing.Ring.HostStep` | lib/SEGGER_RTT/SEGGER_RTT.c:562-634 | The reader may take any part of the unread bytes between two steps of a write; accepted bytes stay equal to bytes gone plus bytes unread. |
| `RttRing.Ring.GetAvailWriteSpace` | lib/SEGGER_RTT/SEGGER_RTT.c:515-531 | The space reported is never more than there is, whatever the reader does between the two offset reads, and at least what there was. |
| `RttRing.Ring.WriteNoCheck` | lib/SEGGER_RTT/SEGGER_RTT.c:425-478 | With enough space the data are appended to the unread bytes; no unread cell is touched while the reader goes on, and the bytes become visible only with the final offset. |
| `RttRing.Ring.WriteBlocking` | lib/SEGGER_RTT/SEGGER_RTT.c:363-405 | What has been stored is always a prefix of the data behind everything accepted before. It is all of it once the reader has taken something in as many rounds as there are bytes, and after at most two rounds without any help if there was space, laid in the same cells as by the other writers. |
| `RttRing.Ring.WriteNoLock` | lib/SEGGER_RTT/SEGGER_RTT.c:1089-1138 | In each mode exactly the announced number of bytes is accepted: all or nothing, as many as fit, or, with a reader that goes on, all; cells and offset are those of the other writers. |
| `RttRing.Ring.WriteSkipNoLock` | lib/SEGGER_RTT/SEGGER_RTT.c:923-983 | All or nothing, decided on the read offset seen first; a success leaves the same cells and offset as the other writers, a refusal changes nothing. |
| `RttRing.Ring.WriteWithOverwriteNoLock` | lib/SEGGER_RTT/SEGGER_RTT.c:822-893 | A write that ends before the last cell of the second lap leaves the most recent size-1 bytes of old content plus data; longer ones leave the exact laps of the source's loop. |
| `RttRing.OverwriteRightIff` | lib/SEGGER_RTT/SEGGER_RTT.c:822-893 | The ring holds the most recent bytes after an overwriting write, whatever the bytes are, exactly when the write ends before the last cell of the second lap; so every write of at most size-1 bytes is right, and longer ones can be wrong. |
| `RttRing.LaterLapsSkipLastCell` | lib/SEGGER_RTT/SEGGER_RTT.c:851-892 | From the second lap on the last cell keeps the byte of the first lap: the cause of the exception. |
| `RttRing.OverwriteFills` | lib/SEGGER_RTT/SEGGER_RTT.c:835-847 | When old bytes have to go, the read offset chosen beforehand ends one cell past the write offset, so the ring is full. |
| `RttRing.Ring.ReadRemaining` | lib/SEGGER_RTT/SEGGER_RTT.c:697-719 | The subtraction of the offsets that wraps below zero never yields a spurious byte: the second chunk is again the oldest unread bytes. |
| `RttRing.Ring.ReadNoLock` | lib/SEGGER_RTT/SEGGER_RTT.c:654-724 | The bytes read are exactly the oldest unread ones, as many as fit; the rest of the destination is untouched, while the writer may go on at any point. |
| `RttPrintf.Descriptor.StoreChar` | lib/SEGGER_RTT/SEGGER_RTT_printf.c:107-126 | The character is appended to what was stored, across the passing-on of a full buffer; a buffer that is not taken turns the return value to -1 and loses no stored character. |
| `RttPrintf.HighestPlace` | lib/SEGGER_RTT/SEGGER_RTT_printf.c:172-188 | The loop ends with the place that the digit loop starts from: requested digits are counted by a product that may wrap in 32 bits, the rest of the search never wraps. |
| `RttPrintf.PlaceFitsIff` | lib/SEGGER_RTT/SEGGER_RTT_printf.c:172-188 | The place of the first requested digit fits 32 bits exactly up to ten digits in base 10 and eight in base 16; the ninth hexadecimal one is 0 in 32 bits, which the source would divide by. |
| `RttPrintf.PrintedRightIff` | lib/SEGGER_RTT/SEGGER_RTT_printf.c:172-200 | The digits printed are those of the number, for every number, exactly if that place fits; otherwise some number is divided by 0 or begins with a digit where a zero is due. |
| `RttPrintf.PrintedIsDigitText` | lib/SEGGER_RTT/SEGGER_RTT_printf.c:172-200 | Where the place fits, search and digit loop together print exactly the digits of the number, with zeros up to the number of columns. |
| `RttPrintf.DigitTextUnique` | lib/SEGGER_RTT/SEGGER_RTT_printf.c:189-200 | Those are the only digits, of that number of columns, that read as the number. |
| `RttPrintf.LeadingDigit` | lib/SEGGER_RTT/SEGGER_RTT_printf.c:192-200 | Division by the place value gives the leading digit and leaves the value of the remaining digits. |
| `RttPrintf.ColumnsOf` | lib/SEGGER_RTT/SEGGER_RTT_printf.c:140-152 | The loop finds the number of columns: the digits of the number, or more if asked for. |
| `RttPrintf.Descriptor.PrintDigits` | lib/SEGGER_RTT/SEGGER_RTT_printf.c:189-200 | The digit loop stores one character for each place, from any starting place on, or a beginning of them if a buffer is not taken. |
| `RttPrintf.Descriptor.PrintUnsigned` | lib/SEGGER_RTT/SEGGER_RTT_printf.c:132-216 | Stores the padded text, also where the place has wrapped, and a beginning of it if a buffer is not taken. |
| `RttPrintf.UnsignedTextParses` | lib/SEGGER_RTT/SEGGER_RTT_printf.c:132-216 | Where the place fits, that text reads back as the number and has the length max(FieldWidth, NumDigits, digits). |
| `RttPrintf.UnsignedLayout` | lib/SEGGER_RTT/SEGGER_RTT_printf.c:132-216 | Character by character: the digits stand at the left exactly with left justification, else at the right; all else is zeros exactly if they are asked for without left justification and without a number of digits, and otherwise spaces. |
| `RttPrintf.Descriptor.PrintInt` | lib/SEGGER_RTT/SEGGER_RTT_printf.c:222-292 | The same for signed numbers: padding, sign, zeros and digits in the source's order, for every format flag. |
| `RttPrintf.IntTextParses` | lib/SEGGER_RTT/SEGGER_RTT_printf.c:222-292 | Where the place fits, that text reads back as the magnitude, has a minus sign exactly for negative numbers, and has the length max(FieldWidth, sign and columns). |
| `RttPrintf.IntLayout` | lib/SEGGER_RTT/SEGGER_RTT_printf.c:222-292 | The same with a sign: minus exactly for a negative number, plus exactly for another one if asked for, in front of padding zeros and behind padding spaces. |
| `CText.Itoa` | lib/LwIP/src/core/def.c:199-239 | The exact decimal text and its NUL when bufsize is at least length plus one, else the empty string; nothing is written to an empty buffer or behind bufsize. |
| `CText.DecimalParses` | lib/LwIP/src/core/def.c:199-239 | The digits of that text read back as the magnitude, without a leading zero except for 0, behind a minus sign for negative numbers. |
| `CText.CaseEqualIsLower` | lib/LwIP/src/core/def.c:128-189 | Comparing characters by setting bit 5 where both are letters is comparing them in lower case. |
| `CText.StrICmp` | lib/LwIP/src/core/def.c:128-153 | Zero exactly for strings of the same text up to letter case. |
| `CText.StrNICmp` | lib/LwIP/src/core/def.c:163-189 | Zero exactly when the first len characters agree up to letter case, where a length of 0 counts as 2^32. |
| `DnsNames.PutQueryName` | lib/LwIP/src/core/dns.c:776-809 | The encoder writes strlen+2 bytes, each of them the one that section 3.1 of RFC 1035 has at its place. |
| `DnsNames.CompareName` | lib/LwIP/src/core/dns.c:650-698 | The method computes the walk that the lemmas below are about, including its failures. |
| `DnsNames.SkipName` | lib/LwIP/src/core/dns.c:707-739 | The method computes the walk that the lemmas below are about, including its failures. |
| `DnsNames.CompareEncoded` | lib/LwIP/src/core/dns.c:650-698 | A query, in any letter case, is found at its encoding and left just behind it exactly when no label behind the first is empty and none is longer than 191 bytes. |
| `DnsNames.FoundIffAgrees` | lib/LwIP/src/core/dns.c:650-698 | At the encoding of a walkable name exactly those queries are found that have its characters, up to case, wherever it has no dot; every other query is answered 0xFFFF. |
| `DnsNames.CompressedIsRejected` | lib/LwIP/src/core/dns.c:665-668 | A name that ends in a compression pointer never matches. |
| `DnsNames.SkipEncoded` | lib/LwIP/src/core/dns.c:707-739 | Skipping the encoding ends just behind it under exactly the same condition. |
| `DnsNames.SkipCompressed` | lib/LwIP/src/core/dns.c:707-739 | Walkable labels that end in a compression pointer are skipped to just behind its two bytes. |
| `DnsNames.StandardNameAccepted` | lib/LwIP/src/core/dns.c:650-739 | For every name of labels of 1 to 63 characters both walks return the offset just behind the encoding. |
| `DnsNames.TrailingDotStopsShort` | lib/LwIP/src/core/dns.c:650-739 | For every name that ends in a dot, with labels of 1 to 191 bytes before it, both walks stop one byte short of the end of the encoding, because its last label is empty. |
| `DnsSafety.FiringConserves` | lib/LwIP/src/core/dns.c:961-969 | The slots that wait for an entry become calls one for one; no other request gains or loses anything. |
| `DnsSafety.LeavingKeepsInv` | lib/LwIP/src/core/dns.c:941-996 | When a pending query leaves, its port is closed unless another pending query sends from it, and all tables stay consistent. |
| `DnsSafety.CheckEntryKeepsInv` | lib/LwIP/src/core/dns.c:1046-1118 | The timer step of an entry keeps the tables consistent in every state, with any number of retries and servers left. |
| `DnsSafety.RecvKeepsInv` | lib/LwIP/src/core/dns.c:1170-1363 | Every packet, whatever its ID, source and content, keeps the tables consistent. |
| `DnsSafety.EnqueueKeepsInv` | lib/LwIP/src/core/dns.c:1374-1503 | Every request, accepted or refused at any point, keeps the tables consistent. |
| `DnsRuns.CalledExactlyOnce` | lib/LwIP/src/core/dns.c:941-1503 | In every reachable state an accepted callback has been called exactly once or is waiting, never both. It is called with the name it was requested for, up to case, and waits only while its table entry is pending for that name. |
| `DnsRuns.PortsOpenWhileUsed` | lib/LwIP/src/core/dns.c:899-995 | In every reachable state a port is open exactly while some pending query sends from it: no leak, no query with a closed port, also when ports are shared. |
| `DnsRuns.AskingKeepsQueries` | lib/LwIP/src/core/dns.c:1415-1503 | A request never evicts or changes a pending query. |
| `DnsRuns.AcceptedIffInProgress` | lib/LwIP/src/core/dns.c:1374-1503 | A callback number is given out, for the name of the request, exactly when a request with a callback is answered with ERR_INPROGRESS. |
| `DnsRuns.AcceptedIff` | lib/LwIP/src/core/dns.c:1374-1503 | A request is accepted exactly when it can join a pending query of the same name, or get an entry, a slot and a port. |
| `DnsRuns.ScanFinds` | lib/LwIP/src/core/dns.c:1415-1444 | The scan prefers an unused entry, else takes a completed one of the largest 8-bit age; when it finds none, no entry from there on is unused or older than the age it began with. |
| `DnsRuns.TableFullIff` | lib/LwIP/src/core/dns.c:1415-1444 | The scan finds no entry exactly when none is unused and every completed one has the age 0 modulo 256. |
| `DnsRuns.StaleEntryIsNotReused` | lib/LwIP/src/core/dns.c:1415-1444 | While a completed entry has the age 0 modulo 256 and all others are pending, a request for a new name is refused with ERR_MEM. |
| `DnsStale.StaleEntryIsReached` | lib/LwIP/src/core/dns.c:1374-1503 | That happens: from the start, one query is answered for an hour, 252 are answered with time to live 0, three stay pending, and the next name is refused although a slot and a port can be had. |
| `DnsRuns.AllocFailsIff` | lib/LwIP/src/core/dns.c:899-930 | No port is found exactly when none is open and none can be opened. |
| `DnsAnswers.PortChoice` | lib/LwIP/src/core/dns.c:899-930 | A query gets a port of its own, the first closed one, exactly if there is one and it can be opened; otherwise it shares the open port that comes next in ring order after the last one handed out. |
| `DnsRetry.TicksPerServer` | lib/LwIP/src/core/dns.c:1070-1102 | With R retries, for every R, a server is given 1 + R(R-1)/2 ticks; with the configured four, 7. |
| `DnsRetry.CheckCountsDown` | lib/LwIP/src/core/dns.c:1046-1118 | Each timer check brings the end of a pending query exactly one tick nearer, through retries and changes of server, and only the last one ends it. |
| `DnsRetry.GivenUpAfterExactly` | lib/LwIP/src/core/dns.c:1046-1131 | In any run that brings no answer for it, a query is pending for exactly its number of timer ticks and given up by the last, whatever requests, packets for other queries and packets from wrong addresses come in between. |
| `DnsRetry.CalledInTime` | lib/LwIP/src/core/dns.c:1046-1363 | In every run, with any packets, error replies, requests and changes of the servers, no accepted callback waits through more than 14 timer ticks, 7 for each of the two servers: by then it has been called, once. |
| `DnsRetry.StepLowersPatience` | lib/LwIP/src/core/dns.c:1020-1363 | The bound that is counted down: no event raises the ticks that a pending query can still last, and a timer tick lowers them. |
| `DnsRetry.NewQueryTicks` | lib/LwIP/src/core/dns.c:1020-1118 | From the start that is 1 + R(R-1)/2 ticks for each server configured in a row. |
| `DnsRetry.FailoverCountsDown` | lib/LwIP/src/core/dns.c:1250-1266 | An error reply that moves a query to the next server strictly lowers the number of ticks left. |
| `DnsAnswers.AddressReachesCallbacks` | lib/LwIP/src/core/dns.c:941-1164 | The answer to a pending query calls exactly the callbacks that wait for it, in slot order, each with its name and the address received; the entry holds that address for its time to live, at most 604800 seconds, or is free at once for 0. |
| `DnsAnswers.RefusalReachesCallbacks` | lib/LwIP/src/core/dns.c:1250-1363 | A reply without an address, or a refusal with no other server configured, calls the same callbacks with no address and frees the entry. |
| `DnsAnswers.StrangersAreIgnored` | lib/LwIP/src/core/dns.c:1200-1248 | A packet that is unfit, or whose ID and source are not those of a pending query and its server, changes nothing. |
| `DnsAnswers.AddressesComeFromServers` | lib/LwIP/src/core/dns.c:941-1503 | In every run from the start, a callback is told an address only if an event of the run is a packet with that address for a query of that name then pending, from the server asked; timer ticks, requests and refusals tell none. |
| `DnsAnswers.AddressIsDelivered` | lib/LwIP/src/core/dns.c:941-1164 | And the address that comes for a waiting callback is what that callback is told, once, whatever the run brings afterwards. |
| `DnsAnswers.KeptForItsTime` | lib/LwIP/src/core/dns.c:1102-1110 | In any run a completed entry keeps its address and name for exactly its time to live, counted in ticks, unless a new query takes it. |
| `DnsAnswers.RequestStarts` | lib/LwIP/src/core/dns.c:1415-1503 | A request for a name that nobody asks for, with an entry, a slot and a port to be had, is pending with the drawn ID on the first server, one tick from its first retry, and uses up one sequence number modulo 256; without a server its callback is told at once that there is no address. |
| `DnsAnswers.RequestJoins` | lib/LwIP/src/core/dns.c:1374-1414 | A request for a name that is being asked for, in any letter case, waits in a free slot for that query and sends nothing. |
| `DnsClient.Client.CreateTxid` | lib/LwIP/src/core/dns.c:999-1018 | Over any sequence of random numbers the loop takes the first one that the table scan finds in no pending query. |
| `DnsClient.DifferentDrawsSuffice` | lib/LwIP/src/core/dns.c:999-1018 | Drawing cannot fail for ever: more different numbers than the table has entries, so any five, contain an unused one. |
| `DnsClient.Client.FireRequests` | lib/LwIP/src/core/dns.c:961-969 | In place: exactly the waiting slots of the entry are called, in slot order, and emptied. |
| `DnsClient.Client.IsShared` | lib/LwIP/src/core/dns.c:975-988 | True exactly when another pending entry has the same port index. |
| `DnsClient.Client.CallFoundAt` | lib/LwIP/src/core/dns.c:941-996 | In place: the tables become those after calling the callbacks and closing the port unless it is shared. |
| `DnsClient.Client.CheckEntryAt` | lib/LwIP/src/core/dns.c:1046-1118 | In place: the tables become those of the timer step that the lemmas are about; a new query draws its ID here. |
| `DnsClient.Client.Tmr` | lib/LwIP/src/core/dns.c:394-399 | In place: every entry is checked once, in order. |
| `DnsClient.Client.CorrectResponseAt` | lib/LwIP/src/core/dns.c:1136-1164 | In place: the entry is completed, its callbacks called with the address, and freed at once if the time to live is 0. |
| `DnsClient.Client.RecvPacket` | lib/LwIP/src/core/dns.c:1170-1363 | In place: a packet has the effect that the lemmas are about, on the entry with its ID and on no other. |
| `DnsClient.Client.AllocPcbIndex` | lib/LwIP/src/core/dns.c:899-930 | In place: a closed port is opened if possible, else the next open one in ring order is shared. |
| `DnsClient.Client.EnqueueName` | lib/LwIP/src/core/dns.c:1374-1503 | In place: a request leaves the tables, the accepted callbacks and the result that the lemmas are about. |
| `SelectSafety.StepKeepsInv` | lib/LwIP/src/api/sockets.c:1963-2648 | Every step of a call, an event or a list walk keeps the protocol's invariant. |
| `SelectRuns.InitialInv` | lib/LwIP/src/api/sockets.c:1963-2648 | Open sockets on which nobody waits, with no call and no walk under way, satisfy the invariant. |
| `SelectRuns.RunKeepsInv` | lib/LwIP/src/api/sockets.c:1963-2648 | So does every state that any interleaving of calls, events and walks reaches from there. |
| `SelectSafety.NewlyReadyChecks` | lib/LwIP/src/api/sockets.c:2516-2546 | An event that makes a socket ready for some kind looks for waiters and carries that kind. |
| `SelectEvents.ReadyIff` | lib/LwIP/src/api/sockets.c:2516-2546 | After every run a socket is readable exactly if its counter at the start plus RCVPLUS less RCVMINUS is above 0, as long as that fits 16 bits; writable exactly if the last SENDPLUS has no SENDMINUS behind it; in error exactly if an error came. |
| `SelectEvents.NotifyStartsPass` | lib/LwIP/src/api/sockets.c:2516-2560 | An event starts a walk exactly if some call is counted at the socket and it is the first data, room where there was none, or an error; the walk is about the kinds present then. |
| `SelectEvents.EventWakesSleeper` | lib/LwIP/src/api/sockets.c:2516-2647 | Data, room or an error makes the socket ready, and for every thread asleep for it a walk signals it within the length of the list. |
| `SelectEvents.WakeUpsHaveCause` | lib/LwIP/src/api/sockets.c:2576-2647 | In every run only those calls have been signalled that watch a kind and a socket that some walk is about. |
| `SelectEvents.CallBegins` | lib/LwIP/src/api/sockets.c:1963-2012 | A call with too many sockets returns -1; another one looks at them first, and returns the number of watched events at once if there are any or it must not wait. |
| `SelectEvents.RescanDecides` | lib/LwIP/src/api/sockets.c:2062-2090 | After linking, the call looks again: with an event present it goes on to return it, without one it sleeps. |
| `SelectEvents.SleeperReturns` | lib/LwIP/src/api/sockets.c:2084-2165 | A woken call that runs on alone returns the number of watched events present, a timed-out one 0. |
| `SelectEvents.CounterIsRaised` | lib/LwIP/src/api/sockets.c:2038-2056 | Below 255 the counter of a watched socket is raised by one and nothing else happens. |
| `SelectEvents.FullCounterAborts` | lib/LwIP/src/api/sockets.c:2038-2061 | A call that finds a counter at 255 takes back what it has raised, leaves the list and returns -1. |
| `SelectSafety.WalkApproaches` | lib/LwIP/src/api/sockets.c:2576-2647 | A turn of a walk wakes the thread it was to visit or still has it ahead, also after a restart. |
| `SelectSafety.ListChangeKeepsWake` | lib/LwIP/src/api/sockets.c:1771-1816 | Linking and unlinking another call loses no pending visit, because the generation counter makes every walk start again. |
| `SelectRuns.NoLostWakeUp` | lib/LwIP/src/api/sockets.c:1963-2648 | After any interleaving, a thread that blocks without having been signalled has no watched socket ready, unless a walk about that event will still come to it. |
| `SelectRuns.QuietMeansNothingReady` | lib/LwIP/src/api/sockets.c:1963-2648 | When every walk is over, only threads without a ready watched socket sleep. |
| `SelectRuns.PassDelivers` | lib/LwIP/src/api/sockets.c:2576-2647 | A walk that is coming signals the thread within as many turns as the list has entries. |
| `SelectRuns.WaitingCountsCalls` | lib/LwIP/src/api/sockets.c:2038-2061 | select_waiting is always the number of calls that have raised and not yet lowered it, within its 8 bits, and 0 when no call is under way; calls aborted by overflow or timed out included. |
| `SelectRuns.LoweringFindsItselfCounted` | lib/LwIP/src/api/sockets.c:2091-2115 | A call that lowers a counter finds it above 0, as the source asserts. |
| `SelectRuns.PassStandsOnLinkedEntry` | lib/LwIP/src/api/sockets.c:2592-2646 | The entry whose next pointer a walk follows is still linked: the call that owns it has not returned. |
| `SelectRuns.SemaphoreGivenOnce` | lib/LwIP/src/api/sockets.c:2592-2630 | The semaphore of a call is given at most once, and exactly when the call is marked as signalled. |
| `SelectRuns.EventKeepsPromiseIff` | lib/LwIP/src/api/sockets.c:2516-2546 | With an event every thread that relies on a ready socket still has a walk coming to it, exactly unless the event is RCVMINUS with the 16-bit counter at its least value and some unsignalled thread relies on that socket for data with no walk about data coming to it. |
| `SelectRuns.CounterUnderflowLosesWakeUp` | lib/LwIP/src/api/sockets.c:2526-2529 | A run from idle sockets, with the counter lowered from 0 to any value of its range and a call asleep on the socket: one more RCVMINUS leaves it asleep with the socket ready and nobody coming exactly if the counter was at its least value. |
| `SelectList.WaitList.Link` | lib/LwIP/src/api/sockets.c:1771-1790 | The entry becomes the head of the doubly linked list, the rest unchanged behind it, and the generation grows. |
| `SelectList.WaitList.Unlink` | lib/LwIP/src/api/sockets.c:1794-1816 | The list is the old one without the entry, in order, well linked in both directions, and the generation grows. |
| `SelectList.RemoveAt` | lib/LwIP/src/api/sockets.c:1794-1816 | From a list without repetitions exactly the one place goes. |
| `SelectList.SelScan` | lib/LwIP/src/api/sockets.c:1834-1899 | With each socket as it is seen in its own protected region: -1 exactly when a watched socket is seen closed, with the result sets untouched; otherwise the sets are exactly the watched sockets seen ready, and the count is their size. |
| `NetconnWrite.PieceOfBytes` | lib/LwIP/src/api/api_msg.c:1677-1725 | A piece of a vector lies in the concatenated bytes where the cursor says. |
| `NetconnWrite.TurnKeepsOk` | lib/LwIP/src/api/api_msg.c:1676-1726 | A turn of the loop stays within the vectors, and asks for another one only if there is a vector for it. |
| `NetconnWrite.StuckIff` | lib/LwIP/src/api/api_msg.c:1676-1726 | A turn asks for another one without having moved exactly for a blocking write with a full send buffer, in front of a positive multiple of 65536 bytes of a vector that is not the last. |
| `NetconnWrite.StuckLoopRuns` | lib/LwIP/src/api/api_msg.c:1676-1726 | From there, while the send buffer stays full, the loop never ends and never moves. |
| `NetconnWrite.LoopEnds` | lib/LwIP/src/api/api_msg.c:1676-1726 | Every non-blocking write, and every write whose vectors but the last are shorter than 2^16 bytes, ends within as many turns as there are bytes and vectors left, whatever the send buffer does. |
| `NetconnWrite.StuckPossibleIff` | lib/LwIP/src/api/api_msg.c:1676-1726 | Some behaviour of the send buffer makes a blocking write stuck, and then without bound on its turns, exactly if a vector that is not the last has 2^16 bytes or more. |
| `NetconnWrite.NonblockingNeverStuck` | lib/LwIP/src/api/api_msg.c:1676-1726 | A non-blocking write never gets stuck. |
| `NetconnWrite.EntryKeepsWrite` | lib/LwIP/src/api/api_msg.c:1639-1803 | After an entry the write is over or the assertions at its head hold for the next one; a blocking ERR_OK means everything is out, a non-blocking one that something is, ERR_WOULDBLOCK that nothing is. |
| `NetconnWrite.EntriesSendPrefix` | lib/LwIP/src/api/api_msg.c:1639-1803 | Over the first call and any callbacks, whatever the send buffer, tcp_write and tcp_output do: the bytes out are the first `offset` bytes of the vectors, and all of them when a blocking write ends with ERR_OK. |
| `NetconnResults.TurnSends` | lib/LwIP/src/api/api_msg.c:1676-1726 | An accepted turn puts out the next bytes of the vector, as many as the vector, 16 bits and the send buffer allow; a refused one puts out nothing and ends the loop with its code; a non-blocking one in front of a full buffer is not tried. |
| `NetconnResults.EntryResult` | lib/LwIP/src/api/api_msg.c:1639-1803 | The result in terms of the replies: ERR_WOULDBLOCK or ERR_OK by whether anything is out once the time is over; the code of a refusal exactly if the last turn was refused with it; without blocking ERR_WOULDBLOCK exactly if nothing is out, else ERR_OK; with blocking ERR_OK exactly if everything is out, else none yet; a missing route unless nothing was tried and nothing is out. |
| `NetconnResults.EntryErrors` | lib/LwIP/src/api/api_msg.c:1639-1803 | No other error ever comes out of an entry. |
| `NetconnResults.AmpleEntry` | lib/LwIP/src/api/api_msg.c:1639-1803 | With room for every piece one entry sends all the bytes and answers ERR_OK. |
| `NetconnResults.BlockingEndsIff` | lib/LwIP/src/api/api_msg.c:1639-1803 | A blocking write that meets no error is answered, with ERR_OK, exactly when all bytes are out, over any number of callbacks. |
| `NetconnResults.MarksIff` | lib/LwIP/src/api/api_msg.c:1728-1743 | The connection is marked not writable exactly if neither a refusal nor lack of time ended the entry and either a non-blocking write has bytes left or little space is left; only the first asks for a later look. |
| `NetconnWrite.Netconn.OneTurn` | lib/LwIP/src/api/api_msg.c:1676-1726 | In place: cursor fields, error and decision to go on are those of the turn that the lemmas are about. |
| `NetconnWrite.Netconn.WriteMore` | lib/LwIP/src/api/api_msg.c:1639-1803 | In place: cursor, result, connection state, signals, and the select events and mark of `MarksIff`. |
| `NetconnWrite.Netconn.DoWrite` | lib/LwIP/src/api/api_msg.c:1812-1858 | A pending error, which is thereby cleared, another operation under way or a missing pcb refuses the write and leaves the one under way alone; otherwise it starts at the first byte. Nobody is signalled. |
| `NetconnWrite.Netconn.SentTcp` | lib/LwIP/src/api/api_msg.c:397-422 | A write under way is continued from its cursor and its end signalled once; with room the connection is then marked writable, and only then. |
| `NetconnWrite.Netconn.PollTcp` | lib/LwIP/src/api/api_msg.c:356-386 | The same, but the connection is marked writable only if a write had left bytes over. |
| `NetconnWrite.Netconn.ErrTcp` | lib/LwIP/src/api/api_msg.c:431-500 | A connection error ends the write under way with that error and signals its thread once; the pcb is gone, the error is kept for the next call, and select hears of error, data and room. |
| `Motor.ProfileRampsIff` | src/app_motor.c:56-91 | A profile can be ramped exactly if the speed is below 200 RPM or an earlier one was; a first request of 200 RPM or more leaves a target frequency of 0. |
| `Motor.AccelerationTime` | src/app_motor.c:130-144 | Acceleration reaches the target after exactly the ramp time, rounded up to whole ticks. |
| `Motor.StopTimeFromCruise` | src/app_motor.c:112-157 | Stopping from the target speed takes exactly the ramp time, rounded up to whole ticks. |
| `Motor.StopTimeFromRamp` | src/app_motor.c:112-157 | Stopping after k ticks of acceleration takes exactly max(1, k) ticks. |
| `Motor.TickIsSmooth` | src/app_motor.c:130-157 | A tick moves the frequency by at most one step and keeps it on the ramp until the drive stops. |
| `MotorRequests.CommandedProfile` | src/app_motor.c:56-91 | Microsteps are taken from 800 on and the speed below 200 RPM, with 2.1 for 2 RPM and less; a frequency is a twentieth of speed times microsteps; and the ramp takes the requested time, or a millisecond if that is longer. |
| `MotorRequests.StartsAsAsked` | src/app_motor.c:56-144 | A start below 200 RPM sets the direction asked for, enables and pulses at the start frequency, accelerates for exactly the asked time in whole ticks, and then has the frequency of the asked speed. |
| `MotorRequests.RateFollowsRamp` | src/app_motor.c:130-157 | Until it stops, every tick leaves the pulses at the frequency of the drive, cut to whole hertz, and touches neither profile, direction, enable nor timer. |
| `MotorRequests.FastFirstRequest` | src/app_motor.c:56-144 | After a first request of 200 RPM or more the drive cruises at frequency 0 from the first tick on, with the pulses at the rate of 2 RPM. |
| `Motor.Controller.CalculateProfile` | src/app_motor.c:56-91 | The fields become those of the profile that the lemmas are about. |
| `Motor.Controller.StartMotor` | src/app_motor.c:96-110 | Direction, enable, frequency, state, pulse rate and timer change together, and only when stopped or slowing down. |
| `Motor.Controller.StopMotor` | src/app_motor.c:112-119 | A running drive starts to slow down; nothing else changes. |
| `Motor.Controller.KinematicTick` | src/app_motor.c:130-157 | The drive after a tick is the one that the lemmas are about. |
| `MotorLoop.Arbiter.Iterate` | src/main.c:242-358 | In place: a stop command clears the request, else a start command sets it, else a change of the switch decides it; commands are acknowledged, and the drive becomes that of the iteration the lemmas are about. |
| `MotorLoop.StepsAreIteration` | src/main.c:318-358 | With no interrupt in between, the single steps come to exactly that iteration. |
| `MotorRequests.IterationObeys` | src/main.c:207-358 | In every run, with interrupts anywhere in the iteration: one with a stop command ends with the motor stopped or slowing down; with a start and no stop, or with neither and the changed switch or the former request, a stopped motor ends moving, enabled and pulsed, in the direction and on the profile asked for, and a moving one is left alone; without a request a stopped one is left alone. |
| `MotorLoop.RunKeepsInv` | src/main.c:207-358 | Any interleaving of the loop's steps with the 1 ms interrupt keeps the invariant. |
| `MotorLoop.SafeBetweenIterations` | src/main.c:318-358 | Between iterations the driver is enabled and pulsed exactly while the motor is not stopped, and without a request it is stopped or slowing down. |
| `MotorLoop.PulsesOnlyWhenEnabled` | src/main.c:375-380 | At every moment pulses go only to an enabled driver. |
| `MotorLoop.FrequencyInRangeIff` | src/main.c:318-328 | While the motor runs its frequency lies between start and target frequency exactly if some profile below 200 RPM has been calculated. |
| `MotorLoop.PulseRateInRange` | src/main.c:375-380 | Then the pulse rate lies in the same range while pulses run. |
| `MotorLoop.ChangesOnlyWhenStopped` | src/main.c:318-328 | Profile and direction change only while the motor is stopped and gets no pulses. |
| `MotorLoop.CruiseRateIff` | src/app_motor.c:96-110 | In every run: if interrupts come between setting the state and the start rate in the start command, and the motor is not stopped after that, it cruises at the target rate exactly if the ramp was not over by then; otherwise it stays at the start rate. |
| `MotorLoop.CruiseRateExample` | src/app_motor.c:96-110 | One interrupt there and a ramp of a millisecond: cruising at 100 RPM with the pulses of 2 RPM. |
| `EthRxChain.Packet.RxLink` | src/ethernetif.c:692-727 | The chain has the buffers in the order of the calls, and every tot_len is the sum of the lengths from its buffer on, in 16 bits. |
| `EthRxChain.Packet.AddToTotals` | src/ethernetif.c:719-724 | The loop adds the length once to every buffer of the chain and changes nothing else. |
| `EthRxChain.TotalsExactIff` | src/ethernetif.c:719-724 | The 16-bit totals are the exact sums exactly if the packet has less than 2^16 bytes. |
| `Crc8.Crc8Atm` | src/crc8.c:11-29 | The register after the bytes is the remainder that the lemmas are about. |
| `Crc8.CrcLinear` | src/crc8.c:11-29 | The CRC of the exclusive or of two messages is the exclusive or of their CRCs. |
| `Crc8.CheckByte` | src/crc8.c:11-29 | A message followed by a byte has CRC 0 exactly if the byte is the message's CRC. |
| `Crc8.CrcParity` | src/crc8.c:11-29 | The CRC has the bit parity of the message, so every odd number of flipped bits is seen. |
| `Crc8.OneByteIsSeen` | src/crc8.c:11-29 | Messages that differ in one byte have different CRCs. |
| `Crc8.BurstIsSeen` | src/crc8.c:11-29 | Every burst error of at most eight bits changes the CRC, also across a byte boundary. |
| `CrcDivision.CrcIsRemainder` | src/crc8.c:6-29 | A message with a byte behind it is a multiple of x^8 + x^2 + x + 1, as a polynomial over two elements, exactly if that byte is its CRC. |
| `Remainders.RoundsInjective` | src/crc8.c:17-26 | The inner loop is a bijection of the register. |
| `Remainders.TwoElements` | src/crc8.c:11-29 | Errors in two adjacent bytes go unseen exactly when the second is the remainder of the first. |

## Left out

- RttRing.Ring.WriteBlocking: promises completion only with a reader that goes on; without one the source never returns.
- RttPrintf.HighestPlace: asks that the source does not divide by 0.
- RttPrintf.Descriptor.PrintUnsigned: asks that the source neither divides by 0 nor reads behind its table of digits, which has no meaning in C.
- RttPrintf.Descriptor.PrintInt: asks for the same, and does not model the least int, whose negation overflows.
- CText.Itoa: does not model the least int, for the same reason.
- DnsClient.Client.CreateTxid: asks that some random number is unused, without which the source draws for ever; how random the numbers are is not modelled.
- InetChksum.InetChksumPseudoPartial: the length assertion at line 416 of inet_chksum.c counts as compiled out; shorter chains are summed to their end.
- NetconnWrite.Netconn.ErrTcp: asks that no operation other than a write is under way; what a connect or a close is told is not modelled.
- The number that SEGGER_RTT_vprintf returns, and its format parsing.
- SEGGER_RTT_GetBytesInBuffer, which adds where the distance has wrapped.
- Two RTT writers at once.
- Polling (lwip_poll) and the thread-local semaphore variant of select.
- A socket closed during select, and full-duplex reference counting.
- The flags passed to tcp_write, and closing a connection with a write under way.
- DNS over IPv6 and mDNS, the local host list, the cache lookup before a request, and callbacks that call the resolver.
- The parsing of DNS resource records between name and address: its verdict is a parameter.
- Rounding of the C floats, and the relation between pulse rate and timer registers.
- Modbus framing, settings in flash, lamps, switch debouncing, encoder and telemetry.
- lwIP pass-through layers, hardware setup and the user interface.

# VMODEM verification

This project models VMODEM, a FOSSIL driver for DOS that carries serial traffic over TCP/IP, and proves what its
code does. It covers the TLS 1.2 client library, the virtual modem (FOSSIL calls, poll cycle, Telnet, call handling,
socket ownership) and the ZMODEM codec of the tests.

Check everything with `dafny verify dfyconfig.toml`.

## How the model is built

Code that changes things in place is a method over arrays and objects, proved against a function of the old state;
what the source promises is then proved about that function. Bytes are `bv8` where the code works on bits and numbers
below 256 where it computes with them; C `int` is 16 bits, `unsigned long` and tick counts are 32 bits, and every
wrap-around is written out.

- Arithmetic: `Powers`, `Octets`, `BigNum`, `Rsa`.
- AES: `Gf256` and `Sbox` (the field and the substitution), `AesCipher` (FIPS 197 on bytes), `Aes` (the table-driven
  code), `Cbc`.
- Hashing: `Compression`, `Hashing` (blocks and padding), `Sha256`, `Sha1`, `Prf` (HMAC and the TLS PRF).
- TLS: `Record` (the format), `Connection` (writer, reader, buffered reads), `Der`, `CommonName`.
- Modem: `Ring`, `TxPath`, `Transmit` (the calls that send), `Telnet`, `Negotiation` (messages) and `Line` (bytes),
  `Call` (one port as a value), `AtLine` (command lines) and `Results` (answers and registers), `Sockets` (who holds
  what), `Modem` (the whole, over runs of events), `Lifecycle` (the exact causes of every change of a port), `Slots`.
- ZMODEM: `Crc16`, `Zmodem`, `ZmodemLine` (the bytes sent).

The network is the environment. A socket's `send` takes any part of what it is given or fails, `recv` returns any
non-empty part of what has arrived, `accept` and `getSocket` give any socket nobody holds; ticks, random draws and the
answers of `isCloseDone`, `isClosed` and the like are arbitrary parameters.

## Where the code does not do what one would expect

Each is stated as a theorem with its exact condition.

- The key schedule leaves out a SubWord for 32-byte keys (`Aes.ScheduleExact`); VMODEM only uses 16-byte keys.
- A zero exponent gives 1 even modulo 1 (`BigNum.PowModExact`).
- An HMAC key longer than a block is cut, not hashed (`Prf.LongKeyIsCut`). Up to 64 bytes the result is that of
  RFC 2104; whether it ever is for a longer key is left open, as that turns on collisions of the hash.
- The record reader decrypts handshake and application records only, and bodies above 18432 bytes are refused
  (`Record.FrameExact`, `Record.RoundTripExact`).
- A certificate without the version tag is rejected, as the walk counts fields as though it were there
  (`Der.KeyExact`, `Der.VersionlessRejected`, `CommonName.CnExact`). Lengths of 32768 and more are misread (`Der.HeaderExact`).
- The pending transmit buffer is shared: a flush on one port can destroy another port's unsent bytes
  (`TxPath.FlushOthersExact`, `TxPath.LostByte`).
- A window size with a byte 255 is not recorded (`Telnet.NawsExact`). From its 255th byte on a terminal type is taken
  for another subnegotiation (`Telnet.TtypeKept`, `Telnet.TtypeWraps`, `Telnet.TtypeSetsSize`).
- After a purge carrier drops with the second status poll, where a comment says three, and comes back after 255 of
  them (`Call.DcdAfterPurge`).
- The listen commands lose the sockets of an active port (`Modem.Machine.CmdListen`, `Modem.Machine.CmdHuntListen`).
- A close request on an external socket is lost when a connect request, or a status query that finds the socket
  connected or closed, follows it before the slot's turn, or when a pending connect fails in that turn; otherwise it is
  carried out (`Modem.CloseRequestExact`, `Modem.CloseRequestLost`).
- A close request can hit the wrong call: it stays pending exactly when the call rings out first, for example after DTR
  was dropped on a call that nobody answers, and the next call then ends in its first safe turn
  (`Modem.OnlyRingOutLeaves`, `Modem.RunLeavesNone`, `Modem.DtrDropGoesStale`, `Modem.StaleKillsNext`).
- The checksum of the ZMODEM tests is not the standard one, since two zero bytes too many are fed in; both ends agree
  (`Crc16.CrcExact`, `Crc16.CrcDiffers`).
- Noise that ends in a pad and ZDLE makes the Python reader miss the header behind it; the C reader does not
  (`ZmodemLine.PairExact`, `ZmodemLine.NoiseExact`).

## Model

| member | source | states |
|---|---|---|
| BigNum.BnAlloc | src/lib/vtls.c:530-535 | a fresh number of the asked size, all limbs zero |
| BigNum.BnFromBytes | src/lib/vtls.c:539-551 | the value is that of the big-endian byte string, for every length up to 32766 |
| BigNum.BnBits | src/lib/vtls.c:553-563 | 0 exactly for the value 0, otherwise the n with 2^(n-1) <= value < 2^n |
| BigNum.BnBit | src/lib/vtls.c:565-571 | bit n of the value, also beyond its limbs |
| BigNum.BnMul | src/lib/vtls.c:573-591 | the exact product; every partial sum fits 32 bits and every carry lands in a limb that is still zero |
| BigNum.BnCmp | src/lib/vtls.c:593-605 | the order of the two values, whatever their limb counts |
| BigNum.BnShiftLeft | src/lib/vtls.c:607-631 | multiplication by 2^n |
| BigNum.BnSubInPlace | src/lib/vtls.c:666-677 | exact subtraction by the 16-bit borrow loop, also when the subtrahend has more limbs |
| BigNum.BnReduce | src/lib/vtls.c:648-679 | one turn of the division: a positive multiple of the modulus is taken away and the remainder stays non-negative |
| BigNum.BnMod | src/lib/vtls.c:633-693 | terminates and gives exactly a mod m for every non-zero m; the final trim loses nothing |
| BigNum.BnModPow | src/lib/vtls.c:695-725 | square and multiply gives base^exp mod m, except that a zero exponent gives 1 unreduced |
| BigNum.PowModExact | src/lib/vtls.c:695-725 | that exception is exactly exp = 0 with m = 1 |
| BigNum.BnToBytes | src/lib/vtls.c:727-737 | the low-order bytes of the value, big-endian, in a string of the given length |
| Powers.BeBytesValue | src/lib/vtls.c:727-737 | writing a value in len bytes and reading it gives the value modulo 256^len |
| Powers.BeValueBytes | src/lib/vtls.c:539-551 | reading a byte string and writing it in the same length gives it back |
| Rsa.PadMessage | src/lib/vtls.c:754-766 | the block is 00 02 PS 00 M with a padding string free of zero bytes, taken from the random draws in order |
| Rsa.UnpadsToMessage | src/lib/vtls.c:754-766 | a receiver that checks 00 02 and looks for the next zero byte gets the message back (section 7.2.2 of RFC 8017) |
| Rsa.RsaEncrypt | src/lib/vtls.c:742-785 | -1 and nothing written exactly when the message is longer than the modulus minus 11 bytes; otherwise the fixed-length encoding of (00 02 PS 00 M)^e mod n |
| Rsa.CiphertextValue | src/lib/vtls.c:768-785 | for a positive exponent the output has the full length and its value is EM^e mod n: nothing is truncated |
| Rsa.EncodedMessageBelowModulus | src/lib/vtls.c:757-766 | the padded block is below every modulus of its length with a non-zero first byte |
| Gf256.XtimeAdd | src/lib/vtls.c:259 | doubling in GF(2^8), as the mulby2 macro does it, distributes over addition |
| Gf256.NamedMultiples | src/lib/vtls.c:322-328 | the table multiples 3, 9, B, D, E are products in GF(2^8) |
| Sbox.SubInverse | src/lib/vtls.c:261-297 | Sboxinv undoes Sbox on every byte |
| Sbox.SubIsAffineOfInverse | src/lib/vtls.c:261-278 | every Sbox entry is the affine map of the inverse in GF(2^8) (section 5.1.1 of FIPS 197) |
| AesCipher.ColMixInverse | src/lib/vtls.c:304-339 | InvMixColumns undoes MixColumns, by linearity and the unit columns |
| AesCipher.DecryptEncrypt | src/lib/vtls.c:390-478 | the equivalent inverse cipher with mixed keys undoes the cipher for every key sequence and number of rounds (section 5.3.5 of FIPS 197) |
| AesCipher.EncryptDecrypt | src/lib/vtls.c:390-478 | and the cipher undoes the equivalent inverse cipher, so each key sequence gives a permutation of the states |
| Aes.Tables.Build | src/lib/vtls.c:304-339 | the eight tables hold the columns of MixColumns after Sbox and of InvMixColumns after Sboxinv |
| Aes.Tables.EncWord | src/lib/vtls.c:400-411 | four table look-ups and a key word are SubBytes, ShiftRows, MixColumns and AddRoundKey on one column |
| Aes.Tables.DecWord | src/lib/vtls.c:445-456 | four look-ups are the inverse steps with the mixed key |
| Aes.Tables.InvKey | src/lib/vtls.c:380-386 | Sbox followed by the decryption tables is InvMixColumns of the key word |
| Aes.Context.ExpandKey | src/lib/vtls.c:360-373 | the key schedule loop computes the recursive schedule, word by word |
| Aes.SubRotIs | src/lib/vtls.c:366-369 | the code's byte expression is SubWord after RotWord (section 5.2 of FIPS 197) |
| Aes.Context.InvertKey | src/lib/vtls.c:375-387 | the decryption schedule is the schedule with InvMixColumns on all but the first and last round keys |
| Aes.ScheduleExact | src/lib/vtls.c:360-373 | the schedule is that of section 5.2 of FIPS 197 for 16- and 24-byte keys and never for 32-byte keys, where the code leaves out a SubWord |
| Aes.FirstWord | src/lib/vtls.c:360-373 | the first new word of the example key in appendix A.1 of FIPS 197 is a0fafe17 |
| Aes.Context.Setup | src/lib/vtls.c:347-388 | both schedules of the key, and the tables if they were not built yet |
| Aes.Context.EncryptBlock | src/lib/vtls.c:390-433 | in place, the cipher of FIPS 197 on the four words |
| Aes.Context.DecryptBlock | src/lib/vtls.c:435-478 | in place, the equivalent inverse cipher |
| Aes.BlockRoundTrip | src/lib/vtls.c:390-478 | for every key and every block decryption gives the block back |
| Aes.BlockRoundTripBack | src/lib/vtls.c:390-478 | and encryption gives every decrypted block back |
| Cbc.CbcEncrypt | src/lib/vtls.c:480-494 | in place, CBC over the whole blocks; the chaining value is left as the last cipher block and the bytes around and behind stay |
| Cbc.CbcDecrypt | src/lib/vtls.c:496-512 | in place, CBC decryption; the chaining value is left as the last cipher block read |
| Cbc.SetIv | src/lib/vtls.c:514-519 | the chaining value is the 16 bytes as big-endian words |
| Cbc.CbcRoundTrip | src/lib/vtls.c:480-512 | decryption undoes encryption for every key, IV and length |
| Cbc.CbcRoundTripBack | src/lib/vtls.c:480-512 | and encryption undoes decryption |
| Compression.Transform1 | src/lib/vtls.c:79-110 | the rotating five variables over 80 rounds of four kinds compute the SHA-1 rounds of section 6.1.2 of FIPS 180-4 on the chaining value |
| Compression.Transform256 | src/lib/sha256.c:38-64 | the loops over the local arrays compute the SHA-256 rounds of section 6.2.2 of FIPS 180-4 on the chaining value |
| Compression.CubeRoots | src/lib/sha256.c:12-28 | each round constant is the first 32 bits of the fraction of the cube root of its prime |
| Compression.SquareRoots | src/lib/sha256.c:66-74 | each initial word is the first 32 bits of the fraction of the square root of its prime |
| Hashing.FoldConcat | src/lib/sha256.c:76-101 | compressing a message whose first part is whole blocks is compressing the parts in turn |
| Hashing.PadWithExact | src/lib/sha256.c:113-121 | two paddings of one message agree exactly when their length fields do |
| Hashing.PadInjective | src/lib/sha256.c:103-121 | different messages have different padded forms (section 5.1.1 of FIPS 180-4) |
| Hashing.PadLayout | src/lib/sha256.c:103-121 | the message, 80h, fewer than 64 zero bytes and the bit length as a big-endian 64-bit number, in whole blocks (section 5.1.1 of FIPS 180-4) |
| Hashing.DigestWords | src/lib/sha256.c:123-129 | the digest is the words of the final chaining value in order, each with its high-order byte first |
| Sha256.State.Update | src/lib/sha256.c:76-101 | for any split, the state after the updates is that of the concatenated message; fewer than 64 bytes stay buffered |
| Sha256.State.Final | src/lib/sha256.c:103-130 | the byte-wise padding loop terminates and the digest is that of the once-padded whole message |
| Sha256.PaddingExact | src/lib/sha256.c:105-121 | with its 32-bit length the padding is the standard one exactly below 2^29 bytes |
| Sha256.Simple | src/lib/sha256.c:132-138 | the one-call form gives the standard digest |
| Sha1.Context.Update | src/lib/vtls.c:119-139 | the same for SHA-1 with its two-word length counter |
| Sha1.Context.Final | src/lib/vtls.c:141-154 | the same for SHA-1, padded in one piece |
| Sha1.DigestIsStandard | src/lib/vtls.c:112-154 | below 2^61 bytes the digest is the standard SHA-1 digest |
| Prf.MacSha1 | src/lib/vtls.c:159-176 | HMAC-SHA1; the output may overwrite the data |
| Prf.MacSha256 | src/lib/vtls.c:181-198 | HMAC-SHA256; the output may overwrite the data, as the PRF needs |
| Prf.LongKeyIsCut | src/lib/vtls.c:190-193 | up to 64 key bytes it is HMAC of RFC 2104; a longer key is cut off instead of hashed |
| Prf.OutputIsPrf | src/lib/vtls.c:203-243 | for secrets of up to 64 bytes the output is the start of P_hash as section 5 of RFC 5246 defines it over HMAC of RFC 2104 |
| Prf.TlsPrf | src/lib/vtls.c:203-243 | for every output length exactly the first bytes of P_SHA256(secret, label ++ seed) (section 5 of RFC 5246) |
| Prf.OutputPrefix | src/lib/vtls.c:203-243 | a shorter output is a prefix of a longer one |
| Record.MacLayout | src/lib/vtls.c:1148-1157 | what a record's MAC covers: the counter as an eight-byte big-endian number, type, version, length and data |
| Record.MacInputInjective | src/lib/vtls.c:1197-1206 | two records have the same MAC input only if counter, type and data are the same |
| Record.MovedRecord | src/lib/vtls.c:1140-1165 | a record that arrives under another counter or as another type, a replayed one for example, is accepted only if the MACs of two different inputs coincide |
| Record.CounterCounts | src/lib/vtls.c:1230 | after n ordinary records the counter has moved by n modulo 2^32 |
| Record.HeaderLayout | src/lib/vtls.c:1226-1228 | five bytes: the type, version 3.3 and the length, big-endian; 22 is a handshake record and 23 application data |
| Record.FrameExact | src/lib/vtls.c:1108-1123 | a record is taken off the stream whole exactly when its length is at most 18432 and it is all there |
| Record.ReadWritten | src/lib/vtls.c:1101-1247 | what the reader makes of every record the writer can send, whatever follows it on the wire |
| Record.RoundTripExact | src/lib/vtls.c:1119-1133 | with the cipher on, a record comes back unchanged exactly when it is a handshake or application record of at most 18395 bytes |
| Record.Conversation | src/lib/vtls.c:1101-1247 | any sequence of handshake and application records of 0 to 16384 bytes comes back with the same types and data, nothing left over, and both counters equal (section 6.2.3.2 of RFC 5246) |
| Connection.Conn.BuildPayload | src/lib/vtls.c:1193-1221 | IV, data, MAC and padding, a whole number of cipher blocks |
| Connection.Conn.WriteRecord | src/lib/vtls.c:1181-1247 | 0 exactly when the encoded record is on the wire; on -1 a proper part of it is; the sending counter steps modulo 2^32 exactly when the cipher is on, also on failure |
| Connection.Wire.ReadFrame | src/lib/vtls.c:1108-1123 | header and body of the next record; an oversized or negative length stops after the header |
| Connection.Conn.CheckContent | src/lib/vtls.c:1140-1165 | padding and MAC are checked before any content is released |
| Connection.Conn.ReadRecord | src/lib/vtls.c:1101-1177 | takes exactly one record off the wire and returns what the format says; the receiving counter steps only on an opened record |
| Connection.Conn.Recv | src/lib/vtls.c:1665-1714 | buffered bytes first, then one record; what does not fit is kept; an alert is an error and other types give nothing |
| Connection.InOrder | src/lib/vtls.c:1665-1714 | over any run of reads of any sizes: what was returned, what is buffered and what is unread add up to the application data, in order |
| Der.TagLen | src/lib/vtls.c:790-809 | the shifting loop reads the big-endian length modulo 2^16 as a signed int, and stays inside the buffer or says so |
| Der.HeaderExact | src/lib/vtls.c:790-809 | it inverts the DER length encoding, short and long form, exactly for lengths below 32768 |
| Der.WalkFields | src/lib/vtls.c:909-948 | the walk over the TBSCertificate fields finds field number 6, or 5, or rejects |
| Der.ExtractRsa | src/lib/vtls.c:901-990 | the pointer walk computes the position of the modulus and exponent without their leading zero |
| Der.KeyExact | src/lib/vtls.c:901-990 | a well-formed certificate below 32768 bytes gives back the minimal modulus and exponent exactly when it has the explicit version tag, and is rejected otherwise |
| Der.VersionlessRejected | src/lib/vtls.c:909-948 | a small version 1 certificate that is rejected, for any key |
| CommonName.ExtractCn | src/lib/vtls.c:816-895 | copies at most room - 1 bytes and a terminating zero, or leaves the buffer alone |
| CommonName.CnExact | src/lib/vtls.c:816-895 | for every well-formed certificate the result is the subject's first common name, cut to the room, exactly when there is one and the version tag is present |
| CommonName.CnOid | src/lib/vtls.c:822-822 | the object identifier that is looked for is the DER encoding of 2.5.4.3 |
| Ring.RingBuf.Put | src/ringbuf.c:25-34 | accepts the byte exactly when there is room and appends it to the queue |
| Ring.RingBuf.Get | src/ringbuf.c:37-48 | gives the oldest byte, or -1 exactly when the queue is empty |
| Ring.RingBuf.Count | src/ringbuf.c:51-54 | the length of the queue |
| Ring.RingBuf.Peek | src/int14.c:784-793 | AH=0Ch: the oldest byte without taking it, or FFFFh |
| Ring.RingBuf.Read | src/int14.c:1014-1019 | AH=18h: as many bytes as fit from the front, in order |
| Ring.PutUnwrap | src/ringbuf.c:25-34 | storing at the tail index appends to the circular contents, with or without wrap-around |
| TxPath.EscapeConcat | src/int14.c:285-298 | escaping distributes over concatenation |
| TxPath.FlushTx | src/int14.c:246-314 | does nothing while ringing, before CONNECT or without an open socket; otherwise backlog first, then the escaped ring, with the socket's two answers; the 1024-byte buffer is never overrun |
| TxPath.ClearTx | src/int14.c:234-244 | empties the ring, and the pending buffer exactly if it is the port's |
| TxPath.LaneConserves | src/int14.c:246-314 | whatever the socket takes is the front of the port's escaped stream, and the rest is kept in order |
| TxPath.FlushOthersExact | src/int14.c:285-312 | a flush leaves another port's stream alone exactly when it does not write over its unsent bytes |
| TxPath.LostByte | src/int14.c:66-72 | two ports and one partial send: a byte is lost |
| TxPath.FlushDrains | src/int14.c:246-314 | when the socket takes everything nothing is left to send |
| TxPath.RunConserves | src/int14.c:246-314 | on every run without such an overwrite, for every port at once: taken ++ still to send = escaped form of what was accepted since the last purge |
| TxPath.TransmitConserves | src/int14.c:234-314 | from the start, if one port transmits, conservation holds for any partial sends, errors and purges |
| TxPath.PutByte | src/int14.c:121-129 | the byte is stored exactly when the ring has room, and then joins the end of the port's stream |
| TxPath.PutOrFlush | src/int14.c:428-436 | AH=01h: a full ring is flushed once and the byte tried again; it is stored or dropped and nothing else changes |
| TxPath.BlockWrite | src/int14.c:1089-1103 | AH=19h: nothing without a call; on a call the count is exactly the length of the prefix that is on its way, and all of it when there is room |
| Transmit.TransmitNoWait | src/int14.c:762-778 | AH=0Bh: AX is 1 exactly when the command interpreter consumes the byte or the ring has room; just a byte that is let through and accepted joins the stream; the branch for a port without a call is never reached |
| Transmit.TransmitWait | src/int14.c:413-436 | AH=01h: the same with one flush of a full ring; the byte goes to the interpreter, onto the stream, or is lost |
| TxPath.TxStatus | src/int14.c:152-162 | TSRE says exactly that the socket has taken every byte of the port; THRE that there is room and no backlog |
| Telnet.TelnetPort.OnConnect | src/telnet.c:63-108 | forgets the previous call's parser and negotiation state and makes seven offers |
| Telnet.TelnetPort.HandleOption | src/telnet.c:142-212 | the option policy: which flag is set and what is answered |
| Telnet.PolicyExact | src/telnet.c:142-212 | what is agreed to once, ignored or refused, in bytes, and exactly which flag it sets |
| Telnet.TelnetPort.Filter | src/telnet.c:227-338 | one byte through the parser; every buffer write is in range although the length counter wraps at 256 |
| Telnet.FeedConcat | src/telnet.c:227-338 | how the stream is cut into chunks does not matter |
| Telnet.Transparent | src/telnet.c:227-338 | for any interleaving of escaped data, option commands, subnegotiations with any body and other commands the result is exactly the data, and the parser is ready for data again |
| Telnet.EscapedArrives | src/telnet.c:348-372 | what the transmit path escapes, the parser gives back unchanged |
| Telnet.NawsExact | src/telnet.c:317-326 | a window size is recorded exactly when none of its four bytes is 0xFF; a doubled 0xFF makes the report too short and the old size stays |
| Telnet.TtypeKept | src/telnet.c:287-316 | a terminal type that has, without its 0xFF bytes, 1 to 253 bytes is kept up to its 40th byte and terminated there; an empty one changes nothing |
| Telnet.TtypeWraps | src/telnet.c:287-326 | of a longer one the first 40 bytes are kept, and everything from the 255th on acts as the content of a second subnegotiation, since the 8-bit length counter wraps |
| Telnet.TtypeSetsSize | src/telnet.c:287-326 | so a terminal type can set the window size |
| Telnet.Drain | src/poll.c:407-446 | the drain loop: the ring grows by exactly the data of what was received once the call is answered, and no put fails; before that commands take effect and data is dropped |
| Telnet.ReadsInOrder | src/int14.c:470-475 | until a purge the application reads the filtered stream in order, for any interleaving of arrivals and reads |
| Negotiation.AnswerCosts | src/telnet.c:142-212 | an answer weighs less than the message and flag it uses up; WONT and DONT are never answered; a flag once set stays set |
| Negotiation.NoLoop | src/telnet.c:142-212 | two endpoints with any flags and any messages in flight deliver at most the measured number of messages on every schedule (RFC 854, General Considerations) |
| Negotiation.TwoVmodems | src/telnet.c:63-212 | two VMODEMs that call each other agree, on every schedule and within 38 messages, on BINARY and SGA and on nothing else |
| Line.OffersOnTheLine | src/telnet.c:85-107 | the opening offers, byte for byte |
| Line.FeedMessages | src/telnet.c:142-338 | messages that arrive as bytes, cut in any way, have exactly the effect of answering them in order, and none is data |
| Line.TwoVmodemsOnTheLine | src/telnet.c:63-338 | two parsers that read the bytes OnConnect sends, on every schedule of single bytes: at most 238 bytes travel, none is taken for data, and when the line is quiet both have agreed on BINARY and SGA and on nothing else |
| Call.RingCount | src/atcmd.c:126-263 | a new call can only go through its script: with 1 <= S0 <= 10 and the driver initialised it is answered after exactly S0 rings and then gets CONNECT, otherwise it is dropped after exactly ten; checks at any ticks see a prefix of that, and all of it if every check comes 110 ticks after the last, or if checks at most g ticks apart go on for 110 + g ticks per event |
| Call.FollowsScript | src/atcmd.c:185-263 | from any point of a call the remaining events come in the fixed order |
| Call.NeverEarly | src/atcmd.c:194-257 | in any run, RINGs, answer and time-out are at least 110 ticks apart and CONNECT comes at least 36 after the answer, in 32-bit tick arithmetic |
| Call.EveryCheckCounts | src/atcmd.c:215-257 | from any point of a call, with checks at least 110 ticks apart each is one event until the script is over |
| Call.NeverStuck | src/atcmd.c:185-263 | from any point of a call, with checks at most g ticks apart the n remaining events have all happened after n times 110 + g ticks |
| Call.DcdAfterPurge | src/int14.c:499-513 | after a purge carrier drops with the second status poll and comes back with the 255th, when the counter wraps |
| Call.InitKeepsCall | src/int14.c:536-588 | after re-initialisation a port rings exactly when an unanswered call has survived it |
| AtLine.LineMeansCommands | src/atcmd.c:282-545 | a command line does what its commands say, in order, up to the first that ends it: for any list of commands with or without numbers, of any number of digits, letters in either case, unknown characters and blanks in front |
| AtLine.DecimalValue | src/atcmd.c:457-473 | a number below 32768 written in decimal is read as what it is |
| Results.ResponseExact | src/atcmd.c:65-104 | the result codes in text and digits, framed by CR LF or followed by CR, or nothing after ATQ1 |
| Results.CodesDistinct | src/atcmd.c:91-104 | different outcomes are told apart in either form |
| Results.SetThenQuery | src/atcmd.c:457-494 | after ATS0=n or ATS30=n the register holds n, and the query answers with the last three digits of n in decimal |
| AtLine.Interpreter.ExecuteLine | src/atcmd.c:282-545 | the index loop over the line computes that, and stays inside the line for every input |
| AtLine.Interpreter.Input | src/atcmd.c:554-629 | one typed byte: escape detection, echo, line editing and execution; echo and result code go to the receive ring as far as there is room |
| AtLine.TypedLine | src/atcmd.c:598-629 | a line of up to 127 characters, typed at any ticks and ended with CR, is executed as typed and nothing of it reaches the network |
| AtLine.LineFull | src/atcmd.c:624-626 | a further character is dropped exactly when the line has 127 |
| AtLine.KeptExact | src/atcmd.c:565-596 | a data byte is kept back exactly when it is a plus that continues an escape or comes 9 ticks after the last data byte |
| AtLine.Escape | src/atcmd.c:565-590 | three of them enter command mode and none is passed on, at whatever ticks the second and third come |
| Sockets.SwapLast | src/poll.c:109-115 | swapping with the last entry removes just the one entry |
| Sockets.DrainKeeps | src/poll.c:109-115 | the backward drain keeps exactly the sockets whose close is not done |
| Sockets.TotalClosed | src/vmodem.h:300-319 | closing puts a socket in exactly one more place: the queue of at most four, or mTCP when it is full |
| Sockets.PortForgets | src/vmodem.c:124-129 | clearing a port's two pointers loses exactly the sockets they held |
| Modem.Machine.DrainClosing | src/poll.c:106-115 | in place; no socket is freed twice, lost or doubled |
| Modem.Machine.CloseFast | src/vmodem.h:300-319 | queued, or freed when the queue is full; only for a socket that mTCP does not already have |
| Modem.Machine.PollHunt | src/poll.c:193-239 | a caller goes to the first free member of the hunt group, is turned away only when no member is free, and no socket is lost |
| Modem.Machine.FindFree | src/poll.c:205-214 | the first member port that listens and has no socket, or -1 when there is none |
| Modem.Machine.Accept | src/poll.c:250-286 | the call rings, is not answered, and holds a socket nobody held |
| Modem.Machine.RejectCaller | src/poll.c:331-340 | a second caller is turned away without losing the socket |
| Modem.Machine.CheckRing | src/atcmd.c:185-263 | exactly the due event; a dropped call gives its socket up; CONNECT only after an answer |
| Modem.Machine.PollActive | src/poll.c:288-571 | the whole turn of an active port: ring check, pending close, idle timeout and disconnect detection, as a function of the port |
| Lifecycle.EveryPortMoves | src/poll.c:102-626 | what any event of a run does to each single port |
| Lifecycle.TurnEnds | src/poll.c:288-571 | the turn of an active port ends its call exactly when it rings out or, in a safe turn, a close is pending, the socket is closed, the remote side is gone more than 182 ticks after the connection, or both directions have been idle longer than the timeout; the port then listens if it can |
| Lifecycle.CallEnds | src/poll.c:102-626 | over every event: a port loses its socket exactly in such a turn, by ringing out at a status request, by AH=04h on a call that is to be closed, or by a listen command |
| Lifecycle.CallBegins | src/poll.c:193-286 | and gets one only while it listens, in a poll turn; it then rings unanswered, with all its clocks at that tick |
| Lifecycle.CallAnswered | src/atcmd.c:215-233 | a call is answered exactly by ATA, ATO, DTR raised while it rings, or the automatic answer after S0 rings |
| Lifecycle.CloseRequested | src/int14.c:650-706 | exactly which events ask for the end of a call, and which settle the request |
| Lifecycle.CallFlags | src/atcmd.c:185-263 | exactly when a port rings, waits for CONNECT and is in command mode after any event |
| Lifecycle.RingsCounted | src/atcmd.c:215-263 | exactly when the ring counter starts again and when it counts, and that the two ticks are those of the last RING and of the answer |
| Lifecycle.SettingsChange | src/atcmd.c:361-475 | exactly what sets S0, the idle timeout, the DTR settings and the driver flag |
| Lifecycle.ClocksChange | src/int14.c:497-516 | exactly what moves the activity ticks and the purge counter; the connection tick never moves during a call |
| Lifecycle.PlaceChanges | src/vmodem.c:117-194 | a port is set up just by the two listen commands, which stop it and make it forget its sockets; a listening socket comes only with AH=04h, if there was none |
| Modem.Machine.FossilInit | src/int14.c:523-633 | AH=04h: closes what must be closed, resets, keeps an unanswered call ringing, and listens again on one socket |
| Modem.Machine.Act | src/int14.c:650-706 | AH=05h, 06h, 09h, the disconnect command and the AT commands on a call: the port changes as given, and is answered exactly by a DTR raise while ringing, ATA or ATO |
| Modem.Machine.SetDtrIgnore | src/atcmd.c:334-343 | AT&D acts on every port |
| Modem.Machine.ModemStatus | src/int14.c:197-213 | bit 7 is carrier and implies an answered call; bit 6 is ringing |
| Modem.Machine.StatusRequest | src/int14.c:497-516 | AH=03h: drives the ringing, counts the poll after a purge and reports |
| Modem.Machine.CmdListen | src/vmodem.c:117-133 | a socket is lost exactly when the port has one |
| Modem.Machine.CmdHuntListen | src/vmodem.c:160-194 | a socket is lost exactly when a slot is free and a member port has one |
| Modem.Machine.MuxAlloc | src/int8.c:324-356 | the handle is the first free slot, which gets a socket nobody held, or nothing changes |
| Modem.Machine.Mux | src/int8.c:358-483 | connect, close and status only change the slot's state |
| Modem.Machine.ServiceExt | src/poll.c:585-613 | an external slot's turn; a requested close frees the slot and queues the socket |
| Slots.ServicedExact | src/poll.c:585-613 | the slot gives its socket up exactly for a close, and its new state tells exactly what became of the connection |
| Modem.CloseRequestExact | src/int8.c:358-463 | after any MUX calls between two turns of a slot the close is carried out exactly when one was asked for, no later connect request and no later status query of a connected or closed socket undid it, and no pending connect fails |
| Modem.CloseRequestLost | src/int8.c:358-410 | a close request followed by a connect request, or by a query that finds the socket connected, is lost |
| Modem.OnlyRingOutLeaves | src/atcmd.c:234-254 | of all events just one leaves a close request behind for the next call: the call rings out while it is pending and the port goes on listening |
| Modem.RunLeavesNone | src/int14.c:529-547 | along every run no port ever listens with an old close request exactly when that never happens; AH=04h, which was changed to prevent this, leaves none |
| Modem.DtrDropGoesStale | src/int14.c:689-698 | dropping DTR on a call that nobody answers leaves such a request when its time is up, unless DTR is ignored |
| Modem.StaleKillsNext | src/poll.c:372-396 | the next call, unless the caller closes it first, survives its first safe turn exactly when no close request was left over |
| Modem.Machine.Handle | src/poll.c:102-626 | every event keeps the invariant and changes ports, slots and answered calls just as the step relation says; no socket is doubled, and none is lost except by a listen command |
| Modem.Machine.Run | src/poll.c:102-626 | over every run of events: each socket in at most one place, at most four waiting to be closed, mode CONN exactly when there is a socket, carrier only on answered calls; every state of the run has the invariant and follows from the one before by the step relation |
| Crc16.BuildTable | tests/comtest.c:1506-1519 | the table holds eight steps of division by x^16+x^12+x^5+1 for every byte |
| Crc16.CrcUpdate | tests/comtest.c:1521-1524 | one table look-up is the byte added at the top and eight division steps |
| Crc16.CrcIsRemainder | tests/test_zmodem.py:57-66 | the checksum is the remainder of the data and four zero bytes, by bit-by-bit long division |
| Crc16.CrcExact | tests/comtest.c:1566-1569 | it differs from the standard ZMODEM checksum (two zero bytes) except when that is 0 or F01Fh |
| Crc16.CrcDiffers | tests/test_zmodem.py:57-66 | a one-byte message with another checksum |
| Zmodem.SendData | tests/comtest.c:1593-1611 | the sender's loop produces the escaped data, the frame end and the escaped checksum |
| Zmodem.DataRoundTrip | tests/test_zmodem.py:238-284 | every byte string and every frame end ZCRCE to ZCRCW comes back, and what follows is untouched |
| ZmodemLine.NoControls | tests/comtest.c:1593-1611 | no DLE, XON, XOFF or FFh is on the line in a data subpacket, whatever its data and checksum are |
| ZmodemLine.EscapedExact | tests/comtest.c:1526-1545 | exactly which bytes are escaped, and how |
| Zmodem.Receiver.RecvDataSubpacket | tests/test_zmodem.py:238-284 | the receiving loop computes the format's decoder and leaves the rest in the buffer |
| Zmodem.SendHexHeader | tests/comtest.c:1553-1591 | the header's bytes as lower-case digits with checksum and trailer |
| ZmodemLine.HeaderFrame | tests/comtest.c:1553-1591 | two pads, ZDLE and the hex mark in front; CR, LF and, unless it is ZFIN, XON behind the fourteen digits |
| ZmodemLine.HeaderDigits | tests/comtest.c:1553-1591 | the digits of an example header, position low byte first |
| Zmodem.FindDigits | tests/comtest.c:1614-1656 | the four-state search finds the first fourteen digits after a pad and ZDLE ZHEX |
| Zmodem.DecodeDigits | tests/comtest.c:1658-1694 | the decoding loops give type and position of the digits, or the mismatch of their checksum |
| Zmodem.RecvHexHeader | tests/comtest.c:1614-1694 | the C reader on any bytes: search, then decoding |
| Zmodem.Receiver.WaitForPad | tests/test_zmodem.py:128-147 | the byte after a pad and ZDLE, leaving the rest in the buffer |
| Zmodem.Receiver.RecvDigits | tests/test_zmodem.py:149-188 | the first fourteen digits, whatever stands between them, then the trailer is eaten |
| Zmodem.Receiver.RecvHeader | tests/test_zmodem.py:226-236 | the Python reader on any bytes, up to the decision for another encoding |
| Zmodem.HeaderRoundTrip | tests/comtest.c:1614-1694 | both header readers return every type and every 32-bit position that was sent, after any noise without a pad character; the C one stops behind the digits, the Python one behind the trailer |
| ZmodemLine.NoiseExact | tests/comtest.c:1614-1656 | the C reader gets a header behind any noise at all, unless the noise holds a whole header of its own, which it takes instead |
| ZmodemLine.PairExact | tests/test_zmodem.py:128-147 | the Python reader gets one behind any noise without a pad right in front of ZDLE; such a pair at the end makes it take a pad for the kind of the header |

## Left out

- Interrupt vectors, register frames, stack switching, inline assembly, installation and NE2000 or UART registers: no functional property; each handler case is a step on state.
- mTCP (TCP, ARP, DNS, ICMP, packet buffers): not in the repository; it is the environment described above.
- Nothing is proved about the strength of SHA-1, SHA-256, HMAC or AES: no hash or cipher is assumed to be free of collisions.
- The handshake dialogue of `vtls_handshake`, the connection table, certificate trust and the quality of `rand()`: a network dialogue without a law of its own; keys, IVs and random draws are parameters.
- BigNum.BnModPow: base and modulus together, and the exponent, have at most 2047 limbs, and the modulus half of that; beyond it a bit count overflows a 16-bit int.
- Rsa.RsaEncrypt: the random draws hold enough non-zero bytes, as the code retries until they do.
- Prf.TlsPrf: label and seed fit a buffer that a 16-bit int can measure, and so does every hashed message piece.
- Failure of `malloc` and `calloc` (also for length zero), and the wrap-around of a far pointer inside its segment: allocation succeeds and offsets are unbounded.
- Connection.Wire.ReadFrame: the socket is a reliable stream; the polling with its 50000-loop timeout becomes failure when the peer has nothing more to send.
- Connection.Wire.SendAll: a `send` that takes nothing for ever is not modelled; the loop ends with everything sent or with a failure.
- Der.ExtractRsa: reading past the certificate buffer is the outcome Overrun, since what the code then reads is not determined.
- Modem.Machine.Act: touches no bytes; the flush of AH=05h and of ATH and the purge of the transmit ring by AH=09h are TxPath.FlushTx and TxPath.ClearTx.
- Transmit.TransmitNoWait: acts on one port's interpreter and transmit path; the socket ownership of Modem is not part of its state.
- The text of RING and CONNECT and the status messages to the telnet user: which event happens is modelled, not the strings.
- Modem.Machine.PollActive: transfers no bytes; the transmit and receive paths are modelled by themselves, so IAC NOP keepalives between partially sent bytes are not.
- Modem.Machine.Accept: the branch that closes an old socket of a listening port is left out, as the invariant shows there is none; the same holds for the poll branch of an active port without a socket.
- `iac_has_pending` is never set by the code and is left out of the parser state.
- The silent form of the pending close (value 2), which no code sets.
- Zmodem.Receiver.RecvDataSubpacket: time-outs are the end of the buffer, as they are for the header readers.
- Zmodem.Receiver.RecvHeader: a header in another encoding is recognised and not read.
- ZMODEM binary headers, the file transfer dialogue and the DOSBox-X harness: orchestration.
- Debug log, screen and keyboard functions (AH=0Dh to 17h), driver information, `StatusBlock` copying, ICMP and DNS requests: plumbing.

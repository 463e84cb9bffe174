# lnsocket, modelled and proved in Dafny

lnsocket speaks enough of the Lightning wire protocol to send messages to a node: it agrees on keys,
encrypts both directions of a connection, cuts a byte stream into messages, and carries the hashes
and the text encodings this needs. This project models those parts and proves what they promise.
`dafny verify dfyconfig.toml` checks all of it.

Code that works step by step is modelled step by step: structs that functions update are classes,
buffers are arrays, loops are loops with invariants. Every such method is proved against a function
that says what it computes, and the lemmas are about those functions. Pure bit functions stay functions.

| Modules | What they model | Main results |
|---|---|---|
| `Register`, `Scaling`, `Polymod`, `Charset`, `Bech32`, `Bech32Values` | `bech32.c`, strings | the parser accepts exactly what the printer makes (in either case); one choice of checksum; errors inside one window of six characters never go unseen; published strings by value |
| `Galois`, `Polynomial`, `Roots`, `Distance`, `Detection` | `bech32.c`, the checksum as a code | up to three wrong symbols anywhere among 1023 never go unseen; two go unseen exactly when they are equal and a multiple of 1023 places apart; one wrong character of the human-readable part never goes unseen |
| `Regroup`, `Segwit` | `bech32.c`, bit groups and addresses | the wrapping 32-bit accumulator outputs the unbounded bit stream; unpadding accepts exactly the images of padding; an address is accepted exactly when it is the printed form of the witness |
| `Sha2`, `Sha256`, `Sha512`, `HashStream`, `Sha256Values`, `Sha512Values` | `sha256.c`, `sha512.c` | rotating registers and the sixteen-word ring compute the FIPS 180-4 block function; any split into updates gives the FIPS 180-4 digest; the published digests of "abc" by value |
| `Hmac`, `Hkdf` | `hmac.c`, `hkdf.c` | RFC 2104 section 2 and RFC 5869 sections 2.2 and 2.3, for every key, text, split and output length; the same again in bytes, through the hash alone |
| `CryptoMsg`, `Transport` | `crypto.c` | in every run of two peers, what was delivered and then what is on the wire is what was sent, and the chains stay in step; no nonce is used twice between rotations; nonces byte by byte and rotations in MACs |
| `Handshake` | `handshake.c` | with a responder written from BOLT #8 every act is accepted and both sides end with each other's keys; all acts in hashes, MACs and bytes |
| `Framing` | `lnsocket.c`, reading and encrypting | messages come back in order under any pattern of short reads, exactly when each is at most 65528 bytes long |
| `ChunkQueue` | `lnsocket_lib.js`, `read_all` | reads of any sizes over chunks of any sizes refine a plain byte stream |
| `BigSize`, `Cursors`, `Tlv` | `bigsize.c`, `cursor.h`, `lnsocket.c` | a number is read exactly when its shortest form stands at the front; a TLV stream determines its records |
| `ErrorLog` | `error.c`, `error.h` | the log is always a sequence of whole messages; the backtrace yields exactly those; nothing is lost exactly when everything fits |

`Arithmetic` and `Bytes` hold what these share. A C string is the sequence of bytes before its NUL.

What code and specification share is fixed from outside as well, so that no constant, order of bytes
or order of steps is free: by published values (bech32 strings, an address, the digests of "abc", TLV
records) and by statements in literal bytes, hashes and MACs (`Hmac.Sha256Mac`, `Hkdf.DeriveBlocks`,
`CryptoMsg.NonceBytes`, `Transport.FrameUses`, `Handshake.StartIs`, `BigSize.EncodedBytes` and others).

Some properties hold only under a condition, and each is proved as "if and only if":

* A bech32 string round-trips exactly when the human-readable part is not empty. `bech32_encode`
  prints an empty one, `bech32_decode` refuses it (`Bech32.RoundTrip`, `Bech32.EmptyHrpFails`).
* A segwit address round-trips exactly when, besides, the version is not negative.
  `segwit_addr_encode` refuses versions above 16 but not those below 0; the version then loses its
  high bits in an unsigned byte (`Segwit.RoundTrip`, `Segwit.NegativeVersionFails`).
* Two wrong symbols are noticed except when they are the same error a multiple of 1023 places apart,
  which no string of at most 90 characters has room for (`Distance.TwoErrorsExactly`,
  `Detection.TwoMissed`).
* SHA-512 pads as FIPS 180-4 says exactly below 2^61 bytes: its bit count has 64 bits where the
  standard has 128 (`Sha512.PaddingIsFips`, `Sha512.LongMessageFails`).
* A framed message reads back exactly when it is at most 65528 bytes long, although longer ones, up
  to 65535, are sent: the reader needs two slices of its 131072-byte buffer, one of them sixteen
  bytes longer than the message (`Framing.FramedRoundTrip`).
* `cryptomsg_encrypt_msg` stays inside the capacity it is given exactly when that is at least 34 bytes
  more than the message, or less than the message: its guard asks for the room of the message alone.
  The socket's buffer is always large enough (`CryptoMsg.CryptoState.EncryptMsg`,
  `Framing.LnSocket.Encrypt`).
* A TLV stream that was written is accepted by a reader of BOLT #1 exactly when its types strictly
  increase; `cursor_push_tlvs` leaves that to its caller (`Tlv.WriteThenStrictParse`,
  `Tlv.UnorderedFails`).

The cipher is a parameter with three promises (`CryptoMsg.Aead.Sound`): ciphertexts are sixteen
bytes longer, opening undoes sealing, opened texts are sixteen bytes shorter. The curve is a
parameter with three (`Handshake.Curve.Sound`): parsing undoes serialising a point to 33 bytes, a
shared secret has 32 bytes, and two usable keys give both sides the same secret. Each set of
promises is shown to be satisfiable. Random keys are arguments.

## Model

| member | source | states |
|---|---|---|
| Register.StepLinear | bech32.c:30-38 | a checksum step of an exclusive or is the exclusive or of the steps |
| Register.StepReduced | bech32.c:30-38 | a step leaves thirty bits |
| Register.StepInjective | bech32.c:30-38 | on thirty-bit registers a step loses nothing |
| Scaling.StepScales | bech32.c:30-38 | a step commutes with multiplying all six symbols by the generator of GF(32), so the code is linear over symbols; each of the five constants is tied to the one before it |
| Scaling.ScaleLinear | bech32.c:30-38 | that multiplication is additive |
| Roots.StepAtRoot | bech32.c:30-38 | read as a polynomial over GF(32), the register's value at the 997th, 998th and 999th power of a generator of GF(1024) is multiplied by that power in every step: these are roots of the modulus that the five constants spell (BIP-173, "Checksum design") |
| Roots.Vanishes | bech32.c:30-38 | a register that is zero at the three points is zero |
| Polymod.FoldAppend | bech32.c:113-145 | absorbing one string after another is absorbing both joined |
| Polymod.FoldInjective | bech32.c:133-145 | registers that end equal after the same symbols began equal, over any number of symbols |
| Polymod.FoldPack | bech32.c:84-90 | six symbols add exactly their packed value to what six zero symbols leave |
| Polymod.PackUnpack | bech32.c:88-90 | six symbols taken from a thirty-bit register make it up again |
| Polymod.PackInjective | bech32.c:88-90 | and no other six symbols do |
| Polymod.SymbolByShift | bech32.c:88-90 | the shift by five times five minus i selects symbol i of six |
| Distance.ThreeErrors | bech32.c:128-145 | three wrong symbols within 1023 places that leave the register as it was are none |
| Distance.TwoErrorsExactly | bech32.c:128-145 | at any length, two wrong symbols leave the register as it was exactly when they are the same error a multiple of 1023 places apart |
| Distance.FourApart | bech32.c:128-145 | strings of at most 1023 symbols that end in one register are equal or differ in at least four places |
| Charset.CharOfRoundTrip | bech32.c:46-57 | the reverse table undoes the alphabet |
| Charset.SymbolOfRoundTrip | bech32.c:46-57 | the alphabet undoes the reverse table up to case, and case does not change the symbol |
| Bech32Values.AlphabetAt | bech32.c:46-46 | the alphabet is qpzry9x8gf2tvdw0s3jn54khce6mua7l, in that order |
| Bech32Values.CharacterClasses | bech32.c:63-68 | a human-readable part has characters 33 to 126; those of A to Z are upper case, those of a to z lower case |
| Bech32.ChecksumUnique | bech32.c:84-90 | of all six-symbol endings exactly the printed checksum satisfies the constant |
| Bech32.DecodeThenEncode | bech32.c:95-156 | an accepted string, printed again, is its own lower-case form |
| Bech32.EncodeThenDecode | bech32.c:59-156 | a string of one case whose lower-case form was printed parses to what was printed |
| Bech32.DecodeIffEncode | bech32.c:59-156 | the parser gives these parts exactly when the string is not of mixed case, the human-readable part is not empty, and the lower-case form is what the printer makes of them |
| Bech32.RoundTrip | bech32.c:59-156 | whatever prints parses back to itself, exactly when the human-readable part is not empty (it may contain the separator) |
| Bech32.EmptyHrpFails | bech32.c:59-156 | every string printed with an empty human-readable part is refused |
| Bech32.CaseInsensitive | bech32.c:113-148 | strings of one case that differ only in case parse alike |
| Bech32.WindowDetected | bech32.c:128-155 | equal residues and a difference inside one window of six symbols cannot go together, at any length |
| Bech32.BurstDetected | bech32.c:95-156 | two accepted strings with the same encoding and human-readable part that differ only inside six consecutive characters are the same string |
| Detection.ThreeDetected | bech32.c:95-156 | two accepted strings with the same encoding, length and human-readable part and at most 1023 characters behind the separator are the same, case aside, or differ in at least four characters |
| Detection.TwoMissedExactly | bech32.c:59-93 | changing two data symbols keeps the printed checksum exactly when both change by the same error a multiple of 1023 places apart |
| Detection.TwoMissed | bech32.c:59-93 | so with 1024 symbols there are two changes that go unnoticed, whatever the human-readable part |
| Bech32.ScanHrp | bech32.c:60-71 | accepts printable characters without upper case, and absorbs their high bits |
| Bech32.CopyHrp | bech32.c:74-77 | copies the human-readable part and absorbs its low bits |
| Bech32.PrintHead | bech32.c:73-78 | the human-readable part and the separator, with the zero between high and low bits absorbed |
| Bech32.CopyData | bech32.c:79-83 | refuses a symbol above 31, else prints and absorbs all of them |
| Bech32.CloseChecksum | bech32.c:84-87 | the register after six zero symbols, with the encoding's constant |
| Bech32.PrintChecksum | bech32.c:88-90 | the register's six symbols, printed |
| Bech32.Encode | bech32.c:59-93 | succeeds exactly when the specification prints, with that string and its NUL in the buffer |
| Bech32.CountData | bech32.c:104-107 | how much follows the last separator |
| Bech32.ScanHead | bech32.c:113-127 | accepts printable characters, folds them to lower case, and notes the cases seen |
| Bech32.AbsorbHead | bech32.c:128-131 | the low bits of the characters as given, which are those of the lower-case form |
| Bech32.ScanTail | bech32.c:132-145 | accepts characters of the alphabet and keeps all symbols but the last six |
| Bech32.Decode | bech32.c:95-156 | yields exactly what the specification parses, NUL included |
| Bech32Values.LetterPrinted | bech32.c:59-93 | the part `a` without data prints as a12uel5l (BIP-173) |
| Bech32Values.LetterPrintedM | bech32.c:40-44 | with the constant of bech32m it prints as a1lqfn3a (BIP-350) |
| Bech32Values.WholePrinted | bech32.c:59-93 | the symbols 0 to 31 behind `abcdef` print as abcdef1qpzry9x8gf2tvdw0s3jn54khce6mua7lmqqqxw (BIP-173) |
| Bech32Values.UpperParsed | bech32.c:95-156 | A12UEL5L parses as bech32 and A1LQFN3A as bech32m |
| Regroup.PadStream | bech32.c:158-173 | the padded symbols carry the input's bits and then the padding, nothing else |
| Regroup.PadThenUnpad | bech32.c:158-178 | narrowing with padding, then widening without, is the identity on all byte strings |
| Regroup.UnpadIffPadded | bech32.c:158-178 | widening without padding accepts exactly the images of padding, and gives the string they came from |
| Regroup.ShiftIn | bech32.c:163-164 | shifting into the wrapping accumulator appends the symbol's bits to the pending ones |
| Regroup.ShiftUp | bech32.c:170-174 | the pending bits moved to the top of a symbol, and when what is left over is zero |
| Regroup.Put | bech32.c:167-167 | one more symbol behind those there are, and its bits behind theirs |
| Regroup.Drain | bech32.c:165-168 | moves full groups out; output and pending bits together stay the input's bits |
| Regroup.ConvertBits | bech32.c:158-178 | outputs exactly the padded symbols, or without padding exactly the accepted string |
| Segwit.SymbolCount | bech32.c:180-192 | forty bytes and a version make at most 65 symbols |
| Segwit.SameIsEqual | bech32.c:201-201 | the comparison up to 84 characters is equality, as the parsed part is shorter |
| Segwit.WitnessIffAddress | bech32.c:180-211 | an address is accepted for this witness exactly when its lower-case form is what the witness prints, the human-readable part is not empty and the version not negative |
| Segwit.RoundTrip | bech32.c:180-211 | an address that was printed gives back its witness, exactly under those two conditions |
| Segwit.Writable | bech32.c:180-192 | exactly which witnesses are printed; of the negative versions those whose low byte is below 32 |
| Segwit.VersionChecksum | bech32.c:198-208 | an accepted address has the bech32 constant if its version is 0, else that of bech32m |
| Bech32Values.AddressBothWays | bech32.c:180-212 | bc1sw50qgdz25j (BIP-350) is written for version 16 and the program 75 1e, and read as these |
| Segwit.NegativeReadsAsZero | bech32.c:180-211 | a negative multiple of 256 is printed like version zero and read back as that |
| Segwit.NegativeVersionFails | bech32.c:180-211 | version -256 with twenty zero bytes under `bc` is printed and does not come back |
| Detection.AddressesFourApart | bech32.c:194-211 | two accepted addresses of one length, human-readable part and kind of version are the same or differ in at least four characters |
| Detection.PartsFourApart | bech32.c:62-82 | two human-readable parts and data strings with one checksum value are the same or differ much: twice the characters that differ in the parts and the symbols that differ make four at least |
| Detection.OneCharacterDetected | bech32.c:62-76 | two parts of one length that differ in one character never have one checksum value over the same data |
| Detection.AnywhereDetected | bech32.c:95-156 | accepted strings with one encoding and separators at one place are the same, case aside, or differ so that the characters before the separator, counted twice, and those behind it make at least four |
| Segwit.Encode | bech32.c:180-192 | succeeds exactly when the specification does, with that address and its NUL in the buffer |
| Segwit.Decode | bech32.c:194-211 | yields exactly the specification's version and program, at most forty bytes |
| Segwit.SameString | bech32.c:201-201 | a bounded comparison that decides equality of the two strings |
| Sha2.RoundIsFips | sha256.c:78-108 | one round on rotated roles in place is one round of shifted registers |
| Sha2.ScheduleAt | sha256.c:109-124 | the specification's schedule satisfies the equations of FIPS 180-4 section 6.2.2 |
| Sha2.NextWordIsScheduled | sha256.c:109-158 | the ring's next word is the schedule's, also in the last two rounds, which skip the write-back |
| Sha2.RingWrite | sha256.c:109-156 | a word written back keeps the ring the last sixteen schedule words |
| Sha2.LoadRounds | sha256.c:92-107 | the first sixteen rounds, loading the block |
| Sha2.RingRounds | sha256.c:109-158 | all further rounds, over a ring of sixteen words |
| Sha2.AddInto | sha256.c:160-167 | the registers added to the state in order |
| Sha2.Transform | sha256.c:87-168 | the state becomes the specification's compression of it with the block |
| Sha256.ChIsFips | sha256.c:52-55 | the rewritten choice function is the standard's |
| Sha256.MajIsFips | sha256.c:56-59 | the rewritten majority function is the standard's |
| Sha256.SigmasAreFips | sha256.c:60-75 | the four sigma functions are the standard's rotations and shifts |
| Sha256.TransformBlock | sha256.c:87-168 | 64 rounds of the code are FIPS 180-4 section 6.2.2 |
| Sha256.OneShot | sha256.c:235-242 | the digest is the standard's, for every message |
| Sha256.WordBytes | sha256.c:92-107 | the four bytes of a word of the block, the most significant one first |
| Sha256.WordThenStore | sha256.c:229-230 | a word is stored as the bytes it was read from |
| Sha256Values.AbcHashed | sha256.c:86-241 | the digest of "abc" is ba7816bf 8f01cfea 414140de 5dae2223 b00361a3 96177a9c b410ff61 f20015ad, so constants, initial values, rotations, byte order and padding are the standard's |
| Sha512.ChIsFips | sha512.c:53-56 | the rewritten choice function is the standard's, on 64-bit words |
| Sha512.MajIsFips | sha512.c:57-60 | the rewritten majority function likewise |
| Sha512.SigmasAreFips | sha512.c:61-76 | the four sigma functions likewise |
| Sha512.TransformBlock | sha512.c:88-186 | 80 rounds of the code are FIPS 180-4 section 6.4.2 |
| Sha512.OneShot | sha512.c:253-261 | for every message the digest with a 64-bit bit count, which is the standard's below 2^61 bytes |
| Sha512.WordBytes | sha512.c:93-108 | the eight bytes of a word of the block, the most significant one first |
| Sha512.WordThenStore | sha512.c:247-248 | a word is stored as the bytes it was read from |
| Sha512Values.AbcHashed | sha512.c:88-261 | the digest of "abc" is ddaf35a193617aba cc417349ae204131 12e6fa4e89a97ea2 0a9eeee64b55d39a 2192992a274fc1a8 36ba3c23a3feebbd 454d4423643ce80e 2a9ac94fa54ca49f |
| Sha512.PaddingIsFips | sha512.c:235-250 | within the standard's limit of 2^128 bits a message is padded as the standard says exactly when it is shorter than 2^61 bytes |
| Sha512.LongMessageFails | sha512.c:238-246 | 2^61 zero bytes are padded otherwise |
| HashStream.PadZerosLeast | sha256.c:225-226 | the padding is the least number of zeros that leaves a whole number of blocks (FIPS 180-4 sections 5.1.1 and 5.1.2) |
| HashStream.PadBytesAreFips | sha256.c:226-226 | the code's modular formula gives the 0x80 byte and that many zeros, never more than a block |
| HashStream.LengthFieldIsFips | sha512.c:238-246 | below 2^61 bytes the shifted 64-bit length, behind zeros where the field is longer, is the standard's field |
| HashStream.LengthFieldIsCount | sha512.c:238-246 | at any length the field holds the last 64 bits of the bit count, behind zeros |
| HashStream.AbsorbShort | sha256.c:199-203 | bytes that do not fill a block only lengthen the tail |
| HashStream.AbsorbBlock | sha256.c:176-184 | bytes that fill it are compressed together with the tail |
| HashStream.HashOneMore | sha256.c:186-204 | one more block is compressed into the state that the blocks before it left |
| HashStream.Context.constructor | sha256.c:206-210 | a fresh context has absorbed nothing |
| HashStream.Context.Init | sha256.c:206-210 | so has one initialised again, whatever it held |
| HashStream.Context.FillBlock | sha256.c:176-184 | completes and compresses the block in the buffer |
| HashStream.Context.WholeBlock | sha256.c:186-197 | compresses a block from the input, with or without the copy that alignment asks for |
| HashStream.Context.KeepTail | sha256.c:199-203 | keeps the remaining bytes behind those in the buffer |
| HashStream.Context.Add | sha256.c:171-204 | the state stays the fold over full blocks of everything added, the buffer its tail |
| HashStream.Context.Update | sha256.c:212-216 | the same for a context that is not finished |
| HashStream.Context.Finish | sha256.c:224-228 | padding and length make the state that of the padded message, at any length |
| HashStream.Context.Done | sha256.c:218-232 | the result is the digest of everything added, and the context is invalid |
| HashStream.HashOnce | sha256.c:235-242 | one message through a fresh context |
| HashStream.HashParts | sha256.c:206-232 | for any split into updates the digest depends only on the joined message |
| HashStream.SameDigest | sha256.c:52-75 | operations that agree everywhere, and length fields that agree, give one digest |
| Hmac.XorAllTwice | hmac.c:75-91 | the second exclusive or turns the ipad block into the opad block |
| Hmac.XorBlock | hmac.c:31-37 | the block with every byte changed by the pad |
| Hmac.BlockKeyLength | hmac.c:55-69 | the key brought to a block has exactly its length |
| Hmac.HmacContext.LoadKey | hmac.c:55-69 | the key, or its digest when longer than a block, then zeros |
| Hmac.HmacContext.Init | hmac.c:48-92 | the inner hash has absorbed key xor ipad, the block in place is key xor opad |
| Hmac.HmacContext.Update | hmac.c:142-151 | the text grows by exactly the new bytes |
| Hmac.HmacContext.Done | hmac.c:160-176 | the result is RFC 2104's MAC of the whole text, however it was split |
| Hmac.MacOnce | hmac.c:198-207 | the one-shot form computes the same MAC |
| Hmac.HmacSha256 | hmac.c:198-207 | RFC 2104 over the standard SHA-256, for every key and text |
| Hmac.Sha256Mac | hmac.c:25-176 | for every key and text the digest of the outer block and the inner digest, the two blocks given byte by byte: the key, hashed when longer than 64 bytes, then zeros, with 0x5c and with 0x36 |
| Hmac.HmacSha512 | hmac.c:210-219 | RFC 2104 over the code's SHA-512 for every key and text, which is over the standard's below 2^61 bytes |
| Hmac.Sha512Mac | hmac.c:25-219 | the same with 128 bytes and SHA-512 |
| Hkdf.NextBlock | hkdf.c:90-95 | one turn gives the MAC of the previous block, the info and the counter |
| Hkdf.Append | hkdf.c:86-88 | a block written behind those there are, inside the output asked for |
| Hkdf.LastBlock | hkdf.c:85-97 | whole blocks and part of the last one are the first L octets of all of them |
| Hkdf.HkdfSha256 | hkdf.c:8-98 | for every length below 255 times 32 exactly the first L octets of T(1), T(2), and so on, nothing beyond them, and the counter never wraps |
| Hkdf.DeriveBlocks | hkdf.c:41-96 | for every length, block i of the output is the MAC, under the MAC of the key material under the salt, of block i-1, the info and the octet i |
| Hkdf.DerivePrefix | hkdf.c:97-97 | a shorter output is the front of a longer one, so a partial last block is the front of the whole one |
| Hkdf.DeriveOnce | hkdf.c:41-83 | 32 octets are one MAC, under the MAC of the key material, of the info and the octet 1 |
| Hkdf.NoSaltIsZeros | hkdf.c:29-41 | no salt is the same as HashLen zeros |
| CryptoMsg.Length16RoundTrip | crypto.c:164-194 | two bytes, the high one first, keep a length modulo 2^16, so all of it exactly when it is below that |
| CryptoMsg.HkdfTwoKeys | crypto.c:52-71 | the two halves of 64 octets of HKDF with empty info |
| CryptoMsg.TwoKeysAre | crypto.c:52-71 | the first key is the MAC of the octet 1, the second that of the first key and the octet 2, both under the MAC of the second argument under the first |
| CryptoMsg.NonceBytes | crypto.c:34-49 | four zero bytes, then the counter's eight bytes, the low one first |
| CryptoMsg.CryptoState.EncryptMsg | crypto.c:168-239 | writes exactly the frame of the message, of any length, and leaves the sending state one message further, or does nothing; what is written stays inside `outcap` exactly when that has room for the frame or not even for the message |
| CryptoMsg.CryptoState.MaybeRotateSending | crypto.c:74-104 | at nonce 1000 new key and chaining key and nonce zero, else nothing |
| CryptoMsg.CryptoState.MaybeRotateReceiving | crypto.c:74-104 | the same for receiving |
| CryptoMsg.CryptoState.DecryptHeader | crypto.c:139-166 | opens the length under the current nonce and uses that nonce up, verified or not |
| CryptoMsg.CryptoState.DecryptBody | crypto.c:106-137 | opens the body, with the exact state after success, after a bad tag, and after sizes that do not fit |
| CryptoMsg.CryptoState.Install | handshake.c:225-231 | new keys, one chaining key for both directions, zero nonces |
| CryptoMsg.SoundIsPossible | crypto.c:122-234 | the cipher's promises are consistent |
| Transport.TakeFrame | crypto.c:106-239 | decrypting a frame gives its message, one message further, and leaves the rest of the stream |
| Transport.WireSnoc | crypto.c:168-239 | sending one more message puts one more frame behind those on the wire |
| Transport.SendInStep | crypto.c:168-239 | a send keeps a direction in step |
| Transport.ReceiveInStep | crypto.c:106-166 | a receive keeps it in step and delivers the oldest message not yet delivered, if it is not too long for the reader |
| Transport.RunInStep | crypto.c:106-239 | after every interleaving of sends and receives both directions are in step, and nothing was delivered past a message too long for its reader |
| Transport.Delivered | crypto.c:106-239 | what was delivered is a prefix of what was sent; chains count messages; with all delivered the wire is empty and both chains are equal; the next receive delivers the next message unless that is too long, and then the direction stands still; all that was sent can be received exactly when nothing is too long |
| Transport.Drained | crypto.c:106-166 | any number of receives delivers just up to the first message that is too long |
| Transport.NonceSchedule | crypto.c:74-104 | after m messages the nonce is 2 (m mod 500) and the key has been rotated m div 500 times |
| Transport.FrameUses | crypto.c:168-236 | message m is sealed with the key of epoch m div 500: first its length, high byte first, under nonce 2 (m mod 500), then itself under the next nonce |
| Transport.EpochStep | crypto.c:74-104 | a rotation leaves nonce zero, and the next chaining key and key are MACs under the MAC of the key under the chaining key |
| Transport.NonceInjective | crypto.c:34-49 | different counters below 1000 have different twelve-byte nonces |
| Transport.NonceNeverReused | crypto.c:74-239 | over a whole run no two of these uses share epoch and nonce |
| Handshake.SoundIsPossible | handshake.c:262-343 | the curve's promises are consistent |
| Handshake.EphemeralAgrees | handshake.c:304-440 | an ephemeral act is accepted and leaves both sides in the same state |
| Handshake.StaticAgrees | handshake.c:236-289 | so is the static act, and it tells the responder the initiator's key |
| Handshake.Agreement | handshake.c:123-440 | for all usable keys all three acts are accepted, and each side's sending key, chaining key and nonce are the other's receiving ones |
| Handshake.ConnectedDelivers | handshake.c:209-234 | every run over the agreed keys is safe in both directions, for readers with room for any length |
| Handshake.StartIs | handshake.c:123-166 | the digest before Act One, in hashes: of the protocol's name, then the prologue, then the responder's key; both strings in bytes |
| Handshake.EphemeralActIs | handshake.c:379-440 | an ephemeral act in hashes, MACs and sealed texts: the order of what is mixed, the keys, the nonce of zeros, the fifty bytes sent |
| Handshake.StaticActIs | handshake.c:236-294 | the static act likewise: its key sealed under nonce one, the last secret, the sixty-six bytes sent |
| Handshake.EphemeralAcceptedIff | handshake.c:298-375 | an ephemeral act is accepted, with this state and key, exactly when version, key, shared secret and tag are right |
| Handshake.StaticAcceptedIff | handshake.c:236-289 | a static act likewise, for the responder of BOLT #8 |
| Handshake.StuckStatesAre | handshake.c:236-440 | the states after a failed act, in hashes and MACs: nothing beyond the step that failed is mixed in |
| Handshake.SplitIs | handshake.c:209-234 | the initiator sends with the first of the last two keys and the responder with the second, as MACs |
| Handshake.ShaMixIn | handshake.c:49-57 | the digest of the old digest and the data |
| Handshake.GenerateKey | handshake.c:36-46 | the first usable key that the random source yields |
| Handshake.Socket.NewHandshake | handshake.c:123-166 | the state before Act One |
| Handshake.Socket.MixSecret | handshake.c:273-273 | the shared secret mixed into chaining key and temporary key |
| Handshake.Socket.ActOnePrep | handshake.c:379-440 | the act and the state that BOLT #8 asks for, or without a shared secret failure and the state it stops in |
| Handshake.Socket.ActTwo | handshake.c:298-375 | accepts exactly what BOLT #8 accepts, answers with Act Three, and installs the initiator's keys; otherwise stops in the state of the check that failed |
| Handshake.Socket.BuildActThree | handshake.c:236-294 | the third act and the final keys, or without a shared secret failure and the state it stops in |
| Handshake.Socket.HandshakeSuccess | handshake.c:209-234 | which half of the last keys sends and which receives, by side |
| Framing.FramedRoundTrip | lnsocket.c:261-302 | an encrypted message reads back, with the rest of the stream untouched, exactly when it is at most 65528 bytes long |
| Framing.SessionRoundTrip | lnsocket.c:261-302 | any number of messages, through any number of key rotations, read back in order and leave both chains equal, exactly when each is at most 65528 bytes long |
| Framing.RunReadable | lnsocket.c:261-302 | under every interleaving, all that was sent in a direction can be read exactly when each message is at most 65528 bytes long |
| Framing.Stream.Read | lnsocket.c:114-118 | an interrupted read, the end of the stream, a broken one, or any non-empty part of what was asked for |
| Framing.ReadAll | lnsocket.c:109-124 | under any pattern of short reads and signals: the next bytes of the stream, exactly when it holds enough before it ends or breaks |
| Framing.LnSocket.Slice | cursor.h:56-90 | the next bytes of the buffer, zeroed, exactly when they fit |
| Framing.LnSocket.Encrypt | lnsocket.c:494-517 | the frame always fits the buffer and stands at its start |
| Framing.LnSocket.ReadHeader | lnsocket.c:265-277 | eighteen bytes opened to a length, or failure, with the nonce used up exactly when there were eighteen |
| Framing.LnSocket.ReadBody | lnsocket.c:279-296 | two disjoint slices inside the buffer, the body opened from one into the other, exactly when all of it fits and verifies; the chain after each outcome |
| Framing.LnSocket.Read | lnsocket.c:261-302 | succeeds exactly when the stream starts with a frame of a message that fits, with that message in the buffer behind the ciphertext's slice; the chain after each failure |
| ChunkQueue.SplitChunk | lnsocket_lib.js:250-253 | keeping part of a chunk and pushing the rest back loses and reorders nothing |
| ChunkQueue.Arrival | lnsocket_lib.js:408-410 | a chunk moved to the queue leaves the bytes not yet read as they are |
| ChunkQueue.TotalLength | lnsocket_lib.js:82-85 | the length of all arrays together |
| ChunkQueue.Concat | lnsocket_lib.js:81-102 | null for no arrays, else one array with their bytes in order |
| ChunkQueue.LNSocket.Events | lnsocket_lib.js:408-421 | events append to the queue, and in the end the connection may close |
| ChunkQueue.LNSocket.QueueRecv | lnsocket_lib.js:173-187 | the oldest chunk comes off the queue, or the call rejects when none will come |
| ChunkQueue.LNSocket.ReadAll | lnsocket_lib.js:240-264 | on an open connection, exactly when enough is still to come, the next n bytes, and these followed by what is still unread are what was unread before; otherwise it throws |
| ChunkQueue.LNSocket.ReadMany | lnsocket_lib.js:240-264 | reads of any sizes one after another: the results have those sizes, and joined with what is still unread they are what was unread before |
| BigSize.PutThenGet | bigsize.c:45-124 | every 64-bit number is read back, whatever follows it |
| BigSize.GetThenPut | bigsize.c:45-124 | what is accepted is the shortest form of the number found, so putting it again gives the bytes consumed |
| BigSize.GetIffPut | bigsize.c:45-124 | a number is found exactly when its encoding stands at the front |
| BigSize.EncodedBytes | bigsize.c:45-73 | each of the four forms byte by byte: its range, its marker, the high byte of the number first |
| BigSize.Len | bigsize.c:32-43 | the length of the encoding |
| BigSize.Put | bigsize.c:45-73 | the encoding at the front of the buffer and nothing else changed |
| BigSize.PutNine | bigsize.c:61-71 | the nine-byte form |
| BigSize.Get | bigsize.c:75-124 | zero exactly when there is no number, else the number and its length |
| BigSize.NineByteValue | bigsize.c:111-114 | the eight shifted bytes add up to the number they spell |
| Cursors.Cursor.constructor | cursor.h:38-43 | an empty cursor over a stretch of memory |
| Cursors.Cursor.Reset | cursor.h:27-30 | back to the start, nothing behind it |
| Cursors.Cursor.Push | cursor.h:227-239 | appends all or nothing; refuses what would reach the end |
| Cursors.Cursor.PushByte | cursor.h:125-135 | appends a byte, into the last place too |
| Cursors.Cursor.PushCStr | cursor.h:328-331 | a string and its NUL are appended exactly when both fit, else neither |
| Cursors.Cursor.PullCStr | cursor.h:110-122 | the bytes up to the next NUL, which is passed over, exactly when there is one |
| Tlv.WriteThenParse | lnsocket.c:330-352 | records that were written are read back |
| Tlv.ParseThenWrite | lnsocket.c:330-352 | what is read was written in that form and no other |
| Tlv.ParseIffWrite | lnsocket.c:330-352 | bytes come apart into these records, in whatever order of types, exactly when the writer writes them for these records |
| Tlv.Unambiguous | lnsocket.c:330-352 | the bytes determine the records |
| Tlv.ShortRecord | lnsocket.c:330-341 | a record with a small type and a short value is the type, the length and the value, in this order |
| Tlv.PublishedRecords | lnsocket.c:343-352 | an amount and a short channel id of BOLT #1's test vectors, one record after the other |
| Tlv.WriteThenStrictParse | lnsocket.c:330-352 | the reader of BOLT #1 accepts what was written, and as it was written, exactly when the types strictly increase, which the writer does not check |
| Tlv.StrictParseIffWrite | lnsocket.c:330-352 | that reader accepts bytes exactly when the writer writes them for records in order |
| Tlv.UnorderedFails | lnsocket.c:342-352 | types 5 and 3, and 5 twice, are written and then refused |
| Tlv.PushBigSize | bigsize.c:131-139 | the encoding is appended exactly when it fits |
| Tlv.PushRecord | lnsocket.c:330-340 | type, length and value are appended exactly when all fit; otherwise only a part of them was |
| Tlv.PushRecords | lnsocket.c:342-352 | the same for a whole stream |
| ErrorLog.JoinedInjective | cursor.h:110-122 | the bytes of the log determine its messages |
| ErrorLog.RunFits | error.c:7-32 | what the log should keep, over any run of notes and resets, always fits the arena |
| ErrorLog.NothingLost | error.c:7-32 | of the messages noted since a reset none is lost exactly when all of them, NULs included, fit |
| ErrorLog.Errors.constructor | lnsocket.c:558-561 | an empty, enabled log of 4096 bytes |
| ErrorLog.Errors.NoteError | error.c:7-32 | the message is kept whole or not at all, and the older ones stay |
| ErrorLog.Errors.ResetLog | lnsocket.c:267-267 | the log is empty again |
| ErrorLog.Errors.Play | error.c:7-32 | after any run of notes and resets the arena's bytes are exactly the kept messages, each with its NUL |
| ErrorLog.Errors.PullNext | error.c:42-47 | the next message in the arena is there to be pulled and is the next one noted |
| ErrorLog.Errors.Backtrace | error.c:34-49 | terminates and yields exactly the messages kept, oldest first |

## Left out

- Sockets, name lookup, `select`, SOCKS5, WebSocket set-up, timers, and the Rust and Go bindings: input and output, or calls into other languages.
- ChaCha20-Poly1305, secp256k1 and random bytes: parameters with the promises stated above.
- `lnsocket_send`: it passes the message in the buffer that the frame is written to. Here the message is a value, apart from the buffer.
- Transport.Delivered: does not cover runs that go on after a failed decryption, because the receiving nonce is then ahead and callers give up; `CryptoMsg.CryptoState.DecryptHeader` and `DecryptBody` state the exact state after a failure.
- Framing.Stream.Read: lets only finitely many signals arrive, so that the loop around it ends.
- Handshake.GenerateKey: does not model a random source that never yields a usable key, for which the loop does not end.
- Handshake.Socket.ActTwo: states digest, chaining key and temporary key after a refused act, not the scratch fields for the shared secret and the other side's key.
- ChunkQueue.LNSocket.ReadAll: does not model a connection that stays open for ever without data, on which it waits; the wrapper's use of zero as an error value for empty messages is not part of this model.
- Regroup.ConvertBits: does not cover groups of more than eight bits, nor input bytes that do not fit their group, which no caller passes; the bitwise or of the shifted accumulator and a symbol is then a sum, and the wrap at 32 bits is explicit; `at` stands for the address of the first free place, so the initial value of the length counter is part of it.
- Sha256Values.AbcHashed: fixes round constants and initial values by the published digest; that they are fractional parts of roots of primes is not derived.
- Tlv.StrictParseIffWrite: does not model the rule of BOLT #1 that unknown even types are refused, as which types are known depends on the message.
- Framing.LnSocket.Slice: does not model the slice as a cursor of its own; the socket keeps its position only.
- HashStream.Context.WholeBlock: does not model pointer alignment; the copy that it decides about is a free choice here.
- Hmac.XorBlock: does not model the 64-bit words of the block; all eight bytes of each pad constant are equal, so it works byte by byte.
- Sha2.Transform: does not unroll the rounds; one shape with a sixteen-word ring and rotating roles stands for both files, with their own constants, rounds and word sizes.
- Tlv.PushRecord: does not cover values of 2^31 bytes and more, as the length is passed on as a signed 32-bit number.
- ErrorLog.Errors.NoteError: does not model formatting; the formatted message is any string without NUL, and the 512-byte buffer it is formatted in is not modelled.
- `cursor_pull_bigsize`: it does not advance the cursor, so the reference reader of TLV streams works on `bigsize_get`.
- Overflow of `size_t` and pointer arithmetic: lengths and positions are unbounded numbers, except where a wrap is written out.
- Feature bits, pings and pongs, init messages, `varint.c`, `commando.c`, `hex_decode`, and the fixed-width helpers of the hash files: they would only add easy members.

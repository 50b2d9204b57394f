# Verified model of electrumz: wire formats, encodings, buffers and the block preloader

This Dafny project models the parts of electrumz that decide what bytes mean, and the
preloader that turns block files into an index, and proves what they are for.

- **Wire formats** (`Wire`, `Transaction`, `Block`): formats are pairs of an encoder and a
  decoder; a format is exact when it round-trips and is canonical. The transaction format is
  not, because an empty input vector marks the extended form, and `AcceptsIff` says for all
  byte strings which are accepted as what. `TxStreams`, `BlockStreams` and `TxWriters` prove
  the loops over the program's streams against these formats.
- **Buffers** (`BufferedFile`, `DataStream`, `BitStream`, `Prevector`): the ring buffer refines
  direct file access, the bit streams are inverse, the small-buffer vector refines a sequence
  and grows in amortised linear time.
- **Encodings** (`Bech32` over `PolyMod` and `Checksums`, `Base58`, `Base64` over
  `ConvertBits`, `KeyIo`, `FixedPoint`, `VarInt`): exact languages and round trips, buffer
  bounds, absence of overflow. Bech32 detects every burst of six errors and any three errors:
  `BechRoots` finds three consecutive roots of the generator in GF(1024), `Generators` and
  `Syndromes` prove for every such code what follows.
- **Scripts** (`Script`): the multisig language and the disjointness of the templates.
- **The preloader** (`BlockFile`, `Index`, `Preload`, `BlockIndex`): the framing of block files,
  the transaction that stores one block with its retries, and the protocol of the worker
  threads over two passes. `BlockIndex.EndToEnd` joins them: from the bytes of the files to
  the committed index.

- **Written out** (`Layout`, `TxLayout`, `ScriptBytes`, `Base58Text`, `Base64Text`, `Addresses`,
  `FixedPointValue`, `IndexTables`): what the functions of the other files mean in bytes,
  characters and numbers, with every width, opcode, alphabet and order in place.

`VectorReads`, `Radix`, `BitOps`, `CStrings` and `Wrappers` hold what the others share. Run
`dafny verify dfyconfig.toml` to check everything.

Loops of the program are methods with invariants, proved against functions on sequences;
large tables and formats are passed as records (`Alphabet`, `Codec`, `Scheme`, `Format`), so
that the theorems hold for every table with the stated laws and are then instantiated for
the ones of the program. Hashes are parameters: the check of Base58 is any function to four
bytes, and the preloader's theorems ask only that the hashes do not collide on the blocks at
hand. Bytes are naturals below 256, strings sequences of characters.

Where the code and its comments differ the model follows the code:

- `ParseFixedPoint` is documented to fail by overflow only outside (-10^18, 10^18), but it also
  refuses zero when exponent plus decimals is negative or at least 18 (`RefusedZero`; `Accepted`
  says exactly when). It keeps the length of the string in an int, and looks at a part only of a
  string of 2^31 characters or more (`SeenAll`).
- The decoders of string objects read up to the first NUL, so a Base64 or Base32 string object
  with a NUL inside can be marked valid, and a Base58 one decoded, although it is no encoding
  (`EmbeddedNul`); `Base64Canonical`, `Base32Canonical` and `ObjectDecodesIff` say that no other can.
- A transaction without inputs but with outputs is encoded in a form that is not read back
  (`NoInput`; `RoundTripIff` says that there is no other).
- A stored block whose version is the magic is not found (`MagicBlock`), and an empty slot that is
  the last entry of a block file before 81 zeros or more is read as an all-zero block (`LastSlot`);
  in all other files the framing holds (`FramingIff`).
- With no worker, which `hardware_concurrency` may cause by returning zero, nothing is loaded
  (`NoWorkers`); with any, all is (`EndToEnd`).

## Model

| member | source | states |
|---|---|---|
| `Transactions.AcceptsIff` | include/electrumz/bitcoin/transaction.h:199-260 | exactly which byte strings are read as which transaction and rest: the extended form of any valid transaction, and the basic form of one without witnesses whose output count would not be taken for flags; in no-witness mode the basic form only |
| `Transactions.RoundTripIff` | include/electrumz/bitcoin/transaction.h:199-260 | decoding an encoding followed by any suffix returns the transaction, witnesses included, and the suffix if and only if the fields are in range and there is an input or no output |
| `Transactions.NoInput` | include/electrumz/bitcoin/transaction.h:199-260 | a transaction in range with one output and no input is not read back, whatever follows |
| `Transactions.NoWitnessRoundTrip` | include/electrumz/bitcoin/transaction.h:199-260 | in no-witness mode every transaction in range comes back with its witnesses stripped, whatever follows |
| `Transactions.ReencodeIs` | include/electrumz/bitcoin/transaction.h:199-260 | re-encoding what was read gives back the bytes consumed, the one exception being an extended form whose stacks are all empty, which loses exactly marker, flag and those stacks |
| `Transactions.NoWitnessInjective` | include/electrumz/bitcoin/transaction.h:234-260 | the bytes hashed into a transaction id determine everything but the witnesses |
| `Transactions.DecodeShrinks` | include/electrumz/bitcoin/transaction.h:199-231 | the decoder never leaves more unread than it was given, accepted or not |
| `Transactions.TxLawful` | include/electrumz/bitcoin/transaction.h:32-153 | the formats of versions, inputs, outputs, stacks and lock times round-trip and are canonical, and inputs are read without witnesses |
| `TxStreams.MutableTransaction.Unserialize` | include/electrumz/bitcoin/transaction.h:199-231 | over a buffered file the in-place decoder fills the transaction with what the format decodes from the rest of the file, and stops or throws where it does |
| `TxStreams.MutableTransaction.ReadWitnesses` | include/electrumz/bitcoin/transaction.h:219-225 | each input gets the next stack of the stream, in order, or the first bad stack stops the loop |
| `TxWriters.SerializeTransaction` | include/electrumz/bitcoin/transaction.h:234-260 | appends to the data stream exactly the encoding of the transaction in the given mode |
| `TxWriters.WriteTxIns` | include/electrumz/bitcoin/serialize.h:699-706 | a vector is written as its compact size and its elements in order |
| `TxLayouts.ValidIff` | include/electrumz/bitcoin/transaction.h:18-153 | a transaction is valid exactly when version, amounts, indexes, sequence numbers and lock time are in the ranges of their types, hashes have 32 bytes and no vector has more than 33554432 elements |
| `TxLayouts.EncodedIs` | include/electrumz/bitcoin/transaction.h:234-260 | the bytes written, field by field: version, marker and flag if there is a witness, inputs, outputs, witnesses and lock time, integers least significant byte first |
| `TxLayouts.AcceptsBytes` | include/electrumz/bitcoin/transaction.h:199-260 | exactly which bytes, so written out, are read as which transaction and rest |
| `Layouts.OutPointAt` | include/electrumz/bitcoin/transaction.h:31-35 | an outpoint is the first 32 bytes and the number of the next four; fewer than 36 bytes are refused |
| `Layouts.OutPointWide` | include/electrumz/bitcoin/uint256.h:99-125 | every outpoint takes 36 bytes |
| `Layouts.InputIff` | include/electrumz/bitcoin/transaction.h:107-113 | which bytes are read as which input: 36 of outpoint, size and bytes of the script, four of sequence number |
| `Layouts.OutputIff` | include/electrumz/bitcoin/transaction.h:148-152 | which bytes are read as which output: eight of amount, size and bytes of the script |
| `Layouts.LeastSizes` | include/electrumz/bitcoin/transaction.h:63-152 | no input takes fewer than 41 bytes, no output fewer than nine |
| `Wire.SizeRoundTrip` | include/electrumz/bitcoin/serialize.h:236-301 | a size of up to 64 bits is read back, whatever follows, exactly when it is at most MAX_SIZE, and is otherwise refused after its bytes |
| `Layouts.SizeIff` | include/electrumz/bitcoin/serialize.h:271-301 | which bytes are read as which size: one below 253, three from 253, five from 65536 up to 33554432; nine never |
| `Wire.SizeCanonical` | include/electrumz/bitcoin/serialize.h:272-301 | every accepted size is at most MAX_SIZE and the bytes consumed are its one encoding |
| `Wire.GetSizeOfCompactSize` | include/electrumz/bitcoin/serialize.h:236-242 | is the length of what WriteCompactSize writes |
| `Wire.VecExact` | include/electrumz/bitcoin/serialize.h:690-740 | a vector of an exact format round-trips and is canonical |
| `Wire.PairExact` | include/electrumz/bitcoin/transaction.h:32-153 | fields one after another keep both properties |
| `Wire.UnsignedExact` | include/electrumz/bitcoin/serialize.h:71-126 | little-endian integers of n bytes are read back, and only their own bytes are read as them |
| `TxWriters.WriteCompactSize` | include/electrumz/bitcoin/serialize.h:246-269 | writes the encoding of the size |
| `TxStreams.ReadCompactSize` | include/electrumz/bitcoin/serialize.h:271-301 | reads from a buffered file what the format decodes, refusing non-canonical and too large sizes |
| `TxStreams.ReadByteVector` | include/electrumz/bitcoin/serialize.h:714-728 | reading in blocks of at most 5000000 bytes is reading the whole vector |
| `TxStreams.ReadTxIns` | include/electrumz/bitcoin/serialize.h:730-746 | resizing and reading in steps of any positive number of elements is reading the whole vector |
| `TxStreams.ReadTxOuts` | include/electrumz/bitcoin/serialize.h:730-746 | the same for outputs |
| `TxStreams.ReadStack` | include/electrumz/bitcoin/serialize.h:730-746 | the same for witness stacks |
| `VarInts.ValueOfEncoded` | include/electrumz/bitcoin/serialize.h:303-382 | the encoding of a number is a terminated string worth that number |
| `VarInts.EncodedOfValue` | include/electrumz/bitcoin/serialize.h:303-382 | every terminated string is the encoding of what it is worth, so numbers and terminated strings correspond one to one |
| `VarInts.ValueIsSum` | include/electrumz/bitcoin/serialize.h:310-321 | the value accumulated by the reader is the documented sum: the last digit, and 128^i times one more than the digit i places before it |
| `VarInts.EncodedIff` | include/electrumz/bitcoin/serialize.h:303-321 | the bytes of a number are the one string with the high bit in all but the last byte whose documented sum is the number |
| `VarInts.Examples` | include/electrumz/bitcoin/serialize.h:323-328 | examples of the documented table |
| `VarInts.Maxima` | include/electrumz/bitcoin/serialize.h:383-403 | the greatest numbers of the unsigned types of one to eight bytes and of the signed ones of four and eight |
| `VarInts.TmpSuffices` | include/electrumz/bitcoin/serialize.h:369-377 | the buffer of (bits+6)/7 bytes holds the digits of every number of the type |
| `VarInts.GetSizeOfVarInt` | include/electrumz/bitcoin/serialize.h:348-360 | is the length of the encoding |
| `VarInts.WriteVarInt` | include/electrumz/bitcoin/serialize.h:365-381 | appends the encoding, within the temporary buffer |
| `VarInts.ReadVarInt` | include/electrumz/bitcoin/serialize.h:383-403 | refuses a terminated string exactly when its value exceeds the maximum of the type, and otherwise returns the value; stops behind the number, or behind the first byte with which it was too large, or at the end |
| `VarInts.ReadEncoded` | include/electrumz/bitcoin/serialize.h:365-403 | what was written is read back, whatever follows |
| `VarInts.ReadIsEncoded` | include/electrumz/bitcoin/serialize.h:383-403 | an accepted prefix is the encoding of the number read |
| `DataStreams.DataStream.Write` | include/electrumz/bitcoin/streams.h:436-440 | the queue gains exactly these bytes at its end |
| `DataStreams.DataStream.Read` | include/electrumz/bitcoin/streams.h:399-416 | returns and removes the first bytes of the queue, or throws and removes none; the read position moves on over the bytes held, until the last are read and all are dropped |
| `DataStreams.DataStream.Ignore` | include/electrumz/bitcoin/streams.h:418-434 | skips exactly that many bytes, or throws for a negative or too large count |
| `DataStreams.DataStream.Rewind` | include/electrumz/bitcoin/streams.h:377-388 | moves the read position back over as many bytes, if that many read ones are held |
| `DataStreams.DataStream.ReadBack` | include/electrumz/bitcoin/streams.h:377-416 | reading and rewinding by as much restores the queue, unless the last bytes were read: then they are gone |
| `DataStreams.DataStream.Clear` | include/electrumz/bitcoin/streams.h:300 | nothing is left to read |
| `BitStreams.ReadWrite` | include/electrumz/bitcoin/streams.h:516-592 | reading back the widths that were written returns each value modulo 2^width at every alignment, whatever follows |
| `BitStreams.Replay` | include/electrumz/bitcoin/streams.h:496-592 | writes of up to 64 bits, flush and reads of the same widths return every value modulo 2^width |
| `BitOps.BitAt` | include/electrumz/bitcoin/streams.h:546-592 | of k bits the first is the most significant: bit i is the digit of 2^(k-1-i) |
| `BitStreams.BitStreamWriter.Write` | include/electrumz/bitcoin/streams.h:564-581 | appends exactly the low bits of the value to the bits written |
| `BitStreams.BitStreamWriter.Flush` | include/electrumz/bitcoin/streams.h:584-592 | pads the last byte with zero bits |
| `BitStreams.BitStreamReader.Read` | include/electrumz/bitcoin/streams.h:516-535 | returns the number of the next bits, or throws when there are too few |
| `BufferedFiles.BufferedFile.Fill` | include/electrumz/bitcoin/streams.h:732-749 | makes progress until the end of the file and keeps every buffered byte equal to the file byte at its position |
| `BufferedFiles.BufferedFile.Read` | include/electrumz/bitcoin/streams.h:782-802 | returns the file bytes at the read position; refuses to pass the limit or the buffer without moving; throws at the end of the file after moving there |
| `BufferedFiles.BufferedFile.SetPos` | include/electrumz/bitcoin/streams.h:809-817 | moves to the position if it has been buffered, else to the end of what has been |
| `BufferedFiles.BufferedFile.SetLimit` | include/electrumz/bitcoin/streams.h:833-838 | accepts exactly the limits not behind the read position |
| `BufferedFiles.BufferedFile.FindByte` | include/electrumz/bitcoin/streams.h:848-856 | stops on the first occurrence of the byte, or throws with none before the end of the file |
| `BufferedFiles.Run` | include/electrumz/bitcoin/streams.h:710-838 | any run of reads and of rewinds within the guarantee returns what direct access to the file would |
| `BufferedFiles.RingWrite` | include/electrumz/bitcoin/streams.h:732-749 | writing the next bytes at their residue overwrites no byte still within the buffer's length of the new end |
| `Bech32.RoundTrip` | src/blockchain/bitcoin/bech32.cpp:146-190 | decoding an encoding returns prefix and values exactly when the prefix is nonempty, printable and without capitals and the length is at most 90 (or both are empty, the answer for a refusal) |
| `Bech32.CaseInsensitive` | src/blockchain/bitcoin/bech32.cpp:158-190 | upper-casing a string without capitals does not change what it decodes to |
| `Bech32.BurstDetected` | src/blockchain/bitcoin/bech32.cpp:37-94 | two accepted strings of one prefix and length that differ only within six consecutive characters are the same |
| `Bech32.ThreeDetected` | src/blockchain/bitcoin/bech32.cpp:37-94 | two accepted strings of one prefix and length that differ in three characters or fewer, wherever they stand, are the same |
| `Bech32.Encode` | src/blockchain/bitcoin/bech32.cpp:146-156 | the string is prefix, separator and the characters of the values and of their checksum |
| `Bech32.Decode` | src/blockchain/bitcoin/bech32.cpp:158-190 | returns prefix and data of exactly the well-formed strings whose checksum verifies |
| `Bech32.DecodesIff` | src/blockchain/bitcoin/bech32.cpp:104-190 | exactly which strings are decoded as which prefix and data: in one letter case, at most 90 printable characters, prefix, 1, and the characters of the data and of six values that bring the checksum over the expanded prefix to one |
| `Bech32.EncodingSpelled` | src/blockchain/bitcoin/bech32.cpp:146-156 | what is encoded is prefix, 1 and the characters of the values and of six such values |
| `Bech32.TestVector` | src/blockchain/bitcoin/bech32.cpp:158-190 | the string A12UEL5L of BIP 173 is decoded as the prefix a without data |
| `PolyMods.ExpansionIff` | src/blockchain/bitcoin/bech32.cpp:102-114 | a prefix of n characters has one expansion: 2n+1 values below 32, where 32 times value i plus value n+1+i is byte i and value n is zero |
| `PolyMods.ExpansionOfBytes` | src/blockchain/bitcoin/bech32.cpp:102-114 | two prefixes share it exactly when their bytes agree |
| `PolyMods.ExpandHRP` | src/blockchain/bitcoin/bech32.cpp:102-114 | the loop makes that expansion |
| `PolyMods.VectorVerifies` | src/blockchain/bitcoin/bech32.cpp:64-93 | the checksum over the values of A12UEL5L is one |
| `PolyMods.BechLaws` | src/blockchain/bitcoin/bech32.cpp:64-93 | one step of the checksum is linear over exclusive or, injective on 30-bit states, and packs six symbols without reduction |
| `PolyMods.ChecksumVerifies` | src/blockchain/bitcoin/bech32.cpp:117-139 | appending the checksum created for a prefix and values makes them verify |
| `PolyMods.ValuesBurst` | src/blockchain/bitcoin/bech32.cpp:117-125 | verified value lists that differ only in a window of six are equal |
| `Checksums.ChecksumMakesOne` | src/blockchain/bitcoin/bech32.cpp:127-139 | for every linear code with these laws, exclusive-oring the remainder into the last six symbols makes the state one |
| `BechRoots.ValuesThree` | src/blockchain/bitcoin/bech32.cpp:45-49 | verified value lists that differ at three places or fewer within a window of 1023 are equal |
| `BechRoots.BechGenerated` | src/blockchain/bitcoin/bech32.cpp:43-93 | the generator of the checksum has three consecutive powers of a primitive element of GF(1024) for roots, and one step is Horner's rule at each |
| `BechRoots.FieldCyclic` | src/blockchain/bitcoin/bech32.cpp:51-57 | 1023 turns by that element move nothing, and 33, 93 and 341 turns move every element but zero |
| `Syndromes.Order` | src/blockchain/bitcoin/bech32.cpp:51-57 | so, for every such code, the element has order 1023: fewer turns, but not none, move every element but zero |
| `Generators.GeneratedDesigned` | src/blockchain/bitcoin/bech32.cpp:45-93 | for every code whose generator has three consecutive roots, evaluation at them turns a step into a multiplication and an addition |
| `Syndromes.NoThree` | src/blockchain/bitcoin/bech32.cpp:45-49 | for every such code, strings with the same final state do not differ at three places or fewer within 1023 |
| `Checksums.NoBurst` | src/blockchain/bitcoin/bech32.cpp:37-94 | for every such code, a difference confined to six symbols changes the final state |
| `Base58.DecodesIff` | src/blockchain/bitcoin/base58.cpp:35-122 | a string decodes to b if and only if it is the encoding of b between optional spaces |
| `Base58.ObjectDecodesIff` | src/blockchain/bitcoin/base58.cpp:129-132 | a string object that is decoded is the encoding of the bytes between spaces if and only if there is no NUL in it |
| `Base58.CheckDecodesIff` | src/blockchain/bitcoin/base58.cpp:134-158 | the same with any four-byte check |
| `Base58.EncodeBase58Check` | src/blockchain/bitcoin/base58.cpp:134-141 | the encoding of the bytes followed by their check |
| `Base58.DecodeBase58Check` | src/blockchain/bitcoin/base58.cpp:143-158 | returns the bytes without their check exactly when the decoded string ends in it |
| `Base58.EncodeBase58` | src/blockchain/bitcoin/base58.cpp:84-122 | one 1 per leading zero byte, then the minimal base-58 digits of the rest |
| `Base58.DecodeBase58` | src/blockchain/bitcoin/base58.cpp:35-82 | accepts one word of base-58 digits between optional spaces and returns its bytes |
| `Base58.MulAdd` | src/blockchain/bitcoin/base58.cpp:54-64 | the in-place carry loop multiplies the buffer by the old radix and adds the digit; nothing is carried out of it |
| `Base58.Fits138` | src/blockchain/bitcoin/base58.cpp:93-95 | n bytes fit in n*138/100+1 base-58 digits, for every n |
| `Base58.Fits733` | src/blockchain/bitcoin/base58.cpp:47-49 | n base-58 digits fit in n*733/1000+1 bytes, for every n |
| `Base58.EncodeOfDecoded` | src/blockchain/bitcoin/base58.cpp:35-122 | every word of base-58 digits is the encoding of what it decodes to |
| `Base58.Base58Lawful` | src/blockchain/bitcoin/base58.cpp:14-33 | the decoding table inverts the alphabet and maps no space |
| `Base58Texts.AlphabetIs` | src/blockchain/bitcoin/base58.cpp:14-15 | digit v is character v of the alphabet |
| `Base58Texts.EncodedIff` | src/blockchain/bitcoin/base58.cpp:84-122 | the encoding is the one text over the alphabet with as many leading ones as there are leading zero bytes and with the same number, as a sum of digits by powers of 58 and of bytes by powers of 256 |
| `Base58Texts.CheckEncodedIff` | src/blockchain/bitcoin/base58.cpp:134-141 | with a check sum the number is that of the bytes times 2^32 plus that of the check |
| `CStrings.DigitsAre` | include/electrumz/bitcoin/util_strencodings.h:65-73 | the decimal digits are 0 to 9 |
| `CStrings.SpacesAre` | include/electrumz/bitcoin/util_strencodings.h:75-88 | the spaces are blank, form feed, line feed, carriage return and the tabs |
| `CStrings.CasesAre` | include/electrumz/bitcoin/util_strencodings.h:196-231 | changing case maps the 26 letters in order and nothing else |
| `ConvertBits.Convert` | include/electrumz/bitcoin/util_strencodings.h:175-197 | the masked accumulator loses no live bit: the output groups have the bits of the input, followed by padding zeros or cut at the last whole group |
| `ConvertBits.UnpadPad` | include/electrumz/bitcoin/util_strencodings.h:175-197 | regrouping to smaller groups with padding and back returns the input |
| `ConvertBits.PadUnpad` | include/electrumz/bitcoin/util_strencodings.h:175-197 | an accepted regrouping to larger groups pads back to the input |
| `Base64.Base64Canonical` | src/blockchain/bitcoin/strencodings.cpp:130-197 | every encoding decodes, marked valid, to its bytes; a C string is marked valid only as the encoding of its decoding; a string object so marked is that encoding exactly when it holds no NUL |
| `Base64.Base32Canonical` | src/blockchain/bitcoin/strencodings.cpp:199-260 | the same for Base32 up to letter case, string objects with a NUL included |
| `Base64.EmbeddedNul` | src/blockchain/bitcoin/strencodings.cpp:193-197 | a string object with a NUL inside is marked valid though it is no encoding |
| `Base64.Encode` | src/blockchain/bitcoin/strencodings.cpp:130-139 | the characters of the regrouped bytes, padded to whole groups |
| `Base64.Decode` | src/blockchain/bitcoin/strencodings.cpp:146-191 | bytes and validity of what is before the terminator |
| `Base64Texts.Base64Text` | src/blockchain/bitcoin/strencodings.cpp:130-139 | the encoding written out: every three bytes are four characters of the alphabet, by quotients and remainders, the last group is filled with = and the length is (n+2)/3*4 |
| `Base64Texts.Base32Text` | src/blockchain/bitcoin/strencodings.cpp:199-208 | every five bytes are eight characters, and the length is (n+4)/5*8 |
| `KeyIo.EncodeDestination` | src/blockchain/bitcoin/key_io.cpp:14-56 | each destination gets the address of its form: empty, checked base-58 of version byte and hash, or bech32 of version and regrouped program |
| `KeyIo.WitnessDecodes` | src/blockchain/bitcoin/key_io.cpp:31-51 | a witness address is shorter than 90, decodes, and regroups without padding to exactly its version and program |
| `KeyIo.WitnessInjective` | src/blockchain/bitcoin/key_io.cpp:31-51 | equal witness addresses name the same version and program |
| `KeyIo.LegacyDecodes` | src/blockchain/bitcoin/key_io.cpp:21-30 | a base-58 address decodes to its version byte and hash |
| `Addresses.KeyAddress` | src/blockchain/bitcoin/key_io.cpp:21-25 | the address of a key hash begins with 1 and decodes to a zero byte and the hash |
| `Addresses.ScriptAddress` | src/blockchain/bitcoin/key_io.cpp:26-30 | the address of a script hash begins with 3 and decodes to a five and the hash |
| `Addresses.WitnessZeroAddress` | src/blockchain/bitcoin/key_io.cpp:31-42 | the addresses of 20-byte and 32-byte programs begin with bc1, are shorter than 90 and spell version zero and the bits of the hash |
| `Addresses.WitnessOtherAddress` | src/blockchain/bitcoin/key_io.cpp:43-51 | versions 1 to 16 with 2 to 40 bytes are spelled likewise, all others get the empty address |
| `Addresses.AddressFixes` | src/blockchain/bitcoin/key_io.cpp:14-56 | an address other than the empty one names one destination |
| `Addresses.EmptyAddress` | src/blockchain/bitcoin/key_io.cpp:14-56 | the empty address is that of no destination and of the refused programs only |
| `FixedPoint.ParseExact` | src/blockchain/bitcoin/strencodings.cpp:432-549 | accepted are exactly the JSON numbers whose scaled value is an integer of magnitude below 10^18 (zero: whose exponent is in range), and the result is that value |
| `FixedPointValues.ParseValue` | src/blockchain/bitcoin/strencodings.cpp:432-549 | a string is accepted with result v exactly if it is the text of a JSON number, written out, with v = (whole + fraction) * 10^(exponent + decimals) of magnitude below 10^18, and for a zero exponent plus decimals from 0 to 17 |
| `FixedPointValues.DigitIs` | src/blockchain/bitcoin/strencodings.cpp:442-457 | character d of 0 to 9 is worth d |
| `FixedPoint.ParseFixedPoint` | src/blockchain/bitcoin/strencodings.cpp:459-549 | for every string the loops and 64-bit guards compute, without overflow, the answer owed for the number in the part that is looked at |
| `FixedPoint.SeenAll` | src/blockchain/bitcoin/strencodings.cpp:467 | that part is the whole string exactly when it is shorter than 2^31 |
| `FixedPoint.SeenBefore` | src/blockchain/bitcoin/strencodings.cpp:467 | a text followed by 2^32 characters of any kind is parsed as if they were not there |
| `FixedPoint.RefusedZero` | src/blockchain/bitcoin/strencodings.cpp:521-543 | 0e18 is refused with no decimals, though its value is zero |
| `FixedPoint.ParseIff` | src/blockchain/bitcoin/strencodings.cpp:471-519 | the grammar recognised is that of JSON numbers, each text in one way |
| `FixedPoint.ProcessMantissaDigit` | src/blockchain/bitcoin/strencodings.cpp:442-457 | the mantissa without trailing zeros stands for the digits read; a refused digit makes a value that no continuation can bring back in range |
| `FixedPoint.TooManyDigits` | src/blockchain/bitcoin/strencodings.cpp:442-457 | digits of 10^18 or more with a last digit other than zero rule out every accepted value, however many digits and whatever exponent follow |
| `FixedPoint.ScaledIs` | src/blockchain/bitcoin/strencodings.cpp:521-543 | the scaled value is an integer exactly when the exponent left after trailing zeros is not negative |
| `Scripts.Solver` | src/blockchain/bitcoin/script.cpp:191-254 | returns the type and solutions of the one template that matches, and no solutions when none does |
| `Scripts.SolverIff` | src/blockchain/bitcoin/script.cpp:191-254 | a standard type and solutions are returned if and only if the script is of that template with those parts |
| `ScriptBytes.SolverBytes` | src/blockchain/bitcoin/script.cpp:191-254 | the answer for every script by its bytes: the eight templates with opcodes, keys and lengths written out, and nonstandard for all others |
| `ScriptBytes.PubKeyIff` | src/blockchain/bitcoin/script.cpp:132-156 | the push of any data and OP_CHECKSIG is pay-to-pubkey exactly if the data is 33 bytes from 2 or 3, or 65 bytes from 4, 6 or 7 |
| `ScriptBytes.MultisigBytesIff` | src/blockchain/bitcoin/script.cpp:132-189 | the multisig language with these keys and the four pushes of each |
| `ScriptBytes.CarrierBytesIff` | src/blockchain/bitcoin/script.cpp:46-61 | data carriers are OP_RETURN and operations up to OP_16, with pushes of exactly the length they say |
| `Scripts.TemplatesDisjoint` | src/blockchain/bitcoin/script.cpp:11-254 | no script matches two templates or one template in two ways, so the order of the tests does not matter |
| `Scripts.MultisigIff` | src/blockchain/bitcoin/script.cpp:173-189 | the matcher accepts exactly OP_m, n keys of valid size in any push form, OP_n, OP_CHECKMULTISIG with 1 <= m <= n <= 16, and returns m and the keys |
| `Scripts.MatchMultisig` | src/blockchain/bitcoin/script.cpp:173-189 | the iterator loop computes that match |
| `Scripts.GetScriptOp` | src/blockchain/bitcoin/script.cpp:80-130 | on success returns opcode and data of the operation at the iterator and moves behind it; on failure no data |
| `Scripts.PushParses` | src/blockchain/bitcoin/script.cpp:80-130 | every push form of any data is parsed back, whatever follows |
| `Scripts.ParsedPush` | src/blockchain/bitcoin/script.cpp:80-130 | a parsed push is the push of its data with its opcode |
| `Scripts.IsPushOnly` | src/blockchain/bitcoin/script.cpp:46-61 | true exactly when the rest of the script is operations up to OP_16 |
| `Scripts.IsWitnessProgram` | src/blockchain/bitcoin/script.cpp:30-44 | finds version and program exactly for witness programs of 2 to 40 bytes |
| `Scripts.MatchPayToPubkey` | src/blockchain/bitcoin/script.cpp:145-156 | finds the key exactly for a direct push of a key of valid size and OP_CHECKSIG |
| `Scripts.MatchPayToPubkeyHash` | src/blockchain/bitcoin/script.cpp:158-165 | finds the hash exactly for the pay-to-public-key-hash template |
| `Scripts.ScriptHashIff` | src/blockchain/bitcoin/script.cpp:11-18 | the fast test is the pay-to-script-hash template |
| `Prevectors.RunPair` | include/electrumz/bitcoin/prevector.h:213-439 | any run of operations on two vectors, exchanges of the two among them, leaves the elements it leaves in two plain sequences; the size field tells where they are and capacity covers size throughout |
| `Prevectors.Run` | include/electrumz/bitcoin/prevector.h:213-434 | the same for any run of operations on one vector |
| `Prevectors.PushAll` | include/electrumz/bitcoin/prevector.h:165-194 | pushing n elements onto an empty vector moves at most 3n elements in all changes of capacity, for every in-place capacity |
| `Prevectors.Prevector.ChangeCapacity` | include/electrumz/bitcoin/prevector.h:165-191 | keeps the elements, moves them to the other storage exactly when needed, and sets the capacity |
| `Prevectors.Prevector.Assign` | include/electrumz/bitcoin/prevector.h:222-231 | the elements become those of the range |
| `Prevectors.Prevector.AssignFill` | include/electrumz/bitcoin/prevector.h:213-220 | the elements become n copies |
| `Prevectors.Prevector.Resize` | include/electrumz/bitcoin/prevector.h:311-326 | cuts off the end or appends default elements |
| `Prevectors.Prevector.Insert` | include/electrumz/bitcoin/prevector.h:342-353 | the element is inserted, those behind move up |
| `Prevectors.Prevector.InsertFill` | include/electrumz/bitcoin/prevector.h:355-365 | copies are inserted, those behind move up |
| `Prevectors.Prevector.InsertRange` | include/electrumz/bitcoin/prevector.h:367-379 | the range is inserted, those behind move up |
| `Prevectors.Prevector.Erase` | include/electrumz/bitcoin/prevector.h:385-405 | the range is removed and the capacity is not changed |
| `Prevectors.Prevector.PushBack` | include/electrumz/bitcoin/prevector.h:407-414 | appends, and grows to one and a half times the new size only when full |
| `Prevectors.Prevector.PopBack` | include/electrumz/bitcoin/prevector.h:416-418 | removes the last element |
| `Prevectors.Prevector.ShrinkToFit` | include/electrumz/bitcoin/prevector.h:334-336 | afterwards the elements are in place exactly when they fit there |
| `Prevectors.Prevector.Swap` | include/electrumz/bitcoin/prevector.h:436-439 | exchanges elements, storage and storage modes |
| `Blocks.BlockReadable` | include/electrumz/bitcoin/block.h:41-101 | a block whose transactions are read back is read back, whatever follows |
| `Blocks.HeaderExact` | include/electrumz/bitcoin/block.h:41-49 | block headers round-trip and are canonical |
| `Layouts.HeaderAt` | include/electrumz/bitcoin/block.h:41-49 | a header is 80 bytes: version, two hashes of 32 bytes, time, target and nonce, each at its place |
| `Layouts.HeaderWritten` | include/electrumz/bitcoin/block.h:41-49 | what is written and hashed for a header in range are the 80 bytes that are read as it |
| `Layouts.BlockIff` | include/electrumz/bitcoin/block.h:97-101 | which bytes are read as which block: a header, the number of transactions, and these one after another |
| `TxLayouts.BlockValidIff` | include/electrumz/bitcoin/block.h:41-101 | the blocks that are read back are those with header and transactions in range and an input in every transaction that has outputs |
| `TxLayouts.BlockIs` | include/electrumz/bitcoin/block.h:97-101 | what is written for a block: header, number of transactions, and their bytes with witnesses |
| `BlockStreams.ReadBlock` | include/electrumz/bitcoin/block.h:97-101 | over a buffered file reads the block the format decodes |
| `BlockFiles.FramingIff` | src/blockchain/TXODB.cxx:353-382 | a file of entries in range that are read back, with any number of zeros at the end, yields exactly the stored blocks, once each and in order, if and only if no stored block has the magic for its version and no empty slot is the last entry before 81 zeros or more |
| `BlockFiles.ScanRender` | src/blockchain/TXODB.cxx:353-382 | for every readable block format whose encodings do not start with the magic, entries yield their blocks and then what follows them yields its own, if an empty slot at the end is followed by another entry |
| `BlockFiles.LoadFile` | src/blockchain/TXODB.cxx:347-382 | the loop over any file ends and collects the blocks the specification finds, going on after failed reads |
| `BlockFiles.ReadEntry` | src/blockchain/TXODB.cxx:359-382 | one round: stop at length zero, skip a foreign magic or an empty slot, otherwise read a block |
| `BlockFiles.LastSlot` | src/blockchain/TXODB.cxx:373-382 | whatever entries stand before it, an empty slot that is the last entry is taken for an all-zero block before 81 zeros or more, and for none before fewer |
| `BlockFiles.MagicBlock` | src/blockchain/TXODB.cxx:353-382 | a file of one readable block whose version is the magic is read as empty |
| `BlockFiles.StoredFound` | src/blockchain/TXODB.cxx:359-382 | behind the bytes fa bf b5 da and any length but zero a block in range is found, whatever follows |
| `BlockFiles.AllForeignSkipped` | src/blockchain/TXODB.cxx:359-371 | frames with another magic are skipped, eight bytes each |
| `BlockFiles.ForeignBetween` | src/blockchain/TXODB.cxx:359-382 | such frames between entries change nothing |
| `BlockFiles.ZeroLengthStops` | src/blockchain/TXODB.cxx:363-366 | a length of zero ends the loop, whatever the magic |
| `BlockFiles.BadBlockSkipped` | src/blockchain/TXODB.cxx:345-382 | a block that cannot be read costs the bytes its reading consumed, and the loop goes on |
| `BlockFiles.MissingBlockSkipped` | src/blockchain/TXODB.cxx:373-380 | a frame with another behind it in place of a block is skipped |
| `Blocks.ShortBlock` | include/electrumz/bitcoin/block.h:41-101 | 80 bytes or fewer are read as no block |
| `Index.NeverRefused` | src/blockchain/TXODB.cxx:415-420 | the ordered append never sees an index that does not compare greater than the last, with the 32-bit comparison of the code |
| `Index.AddBlockRepresents` | src/blockchain/TXODB.cxx:432-566 | the transaction of a block adds exactly the block's entries to the union |
| `Index.AddAgain` | src/blockchain/TXODB.cxx:443-566 | storing a block again, in either pass, changes nothing |
| `Index.UnionUnique` | src/blockchain/TXODB.cxx:432-566 | the database of a set of blocks is unique, so the order of commits does not matter |
| `Index.AddrIffTxo` | src/blockchain/TXODB.cxx:489-566 | an outpoint is in ADDR, under exactly one script hash, exactly when it is in TXO |
| `Index.StoreBlock` | src/blockchain/TXODB.cxx:391-566 | whatever the pattern of full maps, the block is committed once and whole |
| `Index.StoreOut` | src/blockchain/TXODB.cxx:489-562 | one output is added, or skipped when its pair is known, or the map is full |
| `Index.CompareExact` | src/blockchain/TXODB.cxx:415-420 | the comparison of unsigned differences is right for indexes below 2^31 |
| `Index.CompareIs` | src/blockchain/TXODB.cxx:415-420 | it is always the difference modulo 2^32 as a signed number |
| `IndexTables.RepresentsIff` | src/blockchain/TXODB.cxx:432-566 | the union of the entries of blocks is the database where BLK holds every header under its hash, ADDR every output under the hash of its script with the id of its transaction and its number in it, TXO for every transaction its outputs in order with number and value, and nothing else |
| `Preload.InvRun` | src/blockchain/TXODB.cxx:325-622 | after every run, under every interleaving and every pattern of full maps, no block is lost or doubled, the committed database is the union of the committed blocks, there is one writer at most and no put was refused |
| `Preload.InvStep` | src/blockchain/TXODB.cxx:325-622 | every single step keeps that |
| `Preload.Agreement` | src/blockchain/TXODB.cxx:489-566 | in every committed state an outpoint is in ADDR exactly when it is in TXO |
| `Preload.PassEnd` | src/blockchain/TXODB.cxx:602-622 | at the end of a pass every block was committed once per pass and the database is the union of all blocks, and the second pass leaves it as it was; without a worker it stays what it was before |
| `Preload.NoWorkers` | src/blockchain/TXODB.cxx:322-325 | without a worker a pass is over as it begins, and nothing is committed |
| `Preload.Rerun` | src/blockchain/TXODB.cxx:297-625 | files whose blocks are all stored change nothing at any point of any run |
| `Preload.Progress` | src/blockchain/TXODB.cxx:325-622 | until both passes are over some step other than a full map is possible |
| `Preload.Finishes` | src/blockchain/TXODB.cxx:325-622 | from every reachable state the preload can be finished, in a number of steps bounded by the blocks, outputs and files left |
| `Preload.Bounded` | src/blockchain/TXODB.cxx:325-622 | every run is at most as long as the preload costs, and one transaction more for every full map |
| `Preload.StepDescends` | src/blockchain/TXODB.cxx:325-622 | every step other than a full map brings the end nearer, whichever is taken |
| `Preload.PutOk` | src/blockchain/TXODB.cxx:443-562 | a put that finds room is never refused and keeps the working copy equal to the committed database plus the puts so far |
| `BlockIndex.TxIdFixes` | src/blockchain/bitcoin/transaction.cpp:60-68 | without a hash collision a transaction id fixes the outputs |
| `BlockIndex.HashedConsistent` | src/blockchain/TXODB.cxx:432-500 | blocks whose transactions are within their ranges meet the assumption under which the preloader is correct, if the hashes do not collide on them |
| `BlockIndex.ScansYield` | src/blockchain/TXODB.cxx:345-391 | every transaction the loop reads from files of any bytes is within the ranges of its fields |
| `BlockIndex.EndToEnd` | src/blockchain/TXODB.cxx:297-625 | from an empty database, a finished preload of files of any bytes, on whose blocks the hashes do not collide, has made the three tables those of exactly the blocks the loop finds in them, every header, output and transaction under its key and nothing else, whatever the workers and full maps did, if and only if there is a worker or no block |
| `BlockIndex.StoredEndToEnd` | src/blockchain/TXODB.cxx:297-625 | for files that are read as they were written these are exactly the blocks stored in them |

## Left out

- Wrap-around of 32- and 64-bit positions and sizes in streams, buffers and prevector: these are unbounded here, so files and vectors close to the limits of the types are not covered.
- `CBufferedFile::Seek`, and construction with a rewind guarantee as large as the buffer: the file position would leave the ring, or no read would be possible.
- Reading transactions from `CDataStream`: the program reads blocks through `CBufferedFile` only; the stream itself is modelled as a byte queue.
- TxStreams.MutableTransaction.Unserialize: does not say what a failed read leaves in the partly filled transaction, only that it throws and where the stream then stands.
- BlockFiles.LoadFile: does not cover files within 5000000 bytes of 2^64, where reads would meet the default limit.
- `CSizeComputer`: only the size functions it uses are modelled.
- LMDB itself: a single writer, sorted duplicates and maps that can be full at any put are modelled; opening databases, commits and resizing are taken to succeed, and a thread that exits on another error is not followed. In particular a map that is full when a database is opened (TXODB.cxx:397-411) is not tried again by the program: the worker returns without aborting and keeps the write lock, so the theorems about every pattern of full maps speak of full maps at puts.
- Bech32.ThreeDetected: does not go on to four errors, which the comment promises within 89 characters; that is a property of this one generator among those with three consecutive roots, found by search.
- SHA-256 and RIPEMD-160: uninterpreted.
- `InternalSpendTXO`, `PushBlockTip`, `InternalAddTXO` and `GetTXOs`: empty, unused or not filling their result.
- `ExtractDestination` and `ExtractDestinations`: field copying after `Solver`.
- Networking, JSON-RPC, configuration, logging and rate counters: plumbing around libraries.
- Floating-point serialisation, `ParseDouble`, the strtol-based parsers, `FormatParagraph`, `SplitHostPort`, `HexStr` and the `ToString` functions: library-bound or easy.
- prevector: failure of malloc and arguments that alias the vector's own elements; storage is an array of its own.
- Values for `bech32::Encode` of 32 or more, for which the program reads outside its alphabet.

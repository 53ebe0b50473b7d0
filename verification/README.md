# A verified model of the Bitcoin SPV mini-node

The project models the four parts of the node and its script engine that carry real logic,
and proves what holds of them for every input, every byte stream and every run.

- **Base58 and addresses** (`Positional`, `Base58`, `Base58Codec`, `Addresses`, `Filter`):
  the in-place multiply-and-add decoder and the repeated-division encoder, against sections 3
  and 4 of draft-msporny-base58; addresses of scripts; the filter that decides which
  transactions are shown.
- **Transactions and signature hashes** (`Bytes`, `Streams`, `Varint`, `Transaction`,
  `TransactionIo`, `SigHash`): the reader that tells the legacy form from that of BIP 144, the
  legacy writer, and the clone-and-edit signature hash with what exactly it commits to.
- **Header synchronization** (`Headers`, `ChainStore`, `HeaderStore`, `Text`, `Messages`,
  `Packets`, `Deframer`, `Refusals`, `SyncNode`, `SyncRuns`, `Session`): proof of work, the chain
  state and the file it is rebuilt from, packets and the receive loop, and the node as a state
  machine in which any number of connections interleave.
- **Scripts** (`Script`, `Vm`): the tokenizer and the stack machine.

Code that works step by step is imperative here too. Readers are methods of a cursor over
the unread bytes (`Streams.Reader`), writers append to a `Streams.Writer`, the Base58 decoder
rewrites an array, `HeaderStore.ChainState`, `Vm.ExecutionContext` and `Session.Connection` are
classes whose methods change their fields. Each such method is proved equal to a function of
its inputs or of the old state, and the laws are lemmas about these functions. The Base58
functions take the alphabet as an argument; `Base58.AlphabetIsAlphabet` and
`Addresses.AlphabetHasNoUnderscore` show that the real one meets their assumptions, and
`Addresses.AddressUnique` and `Filter.DisplayedNeverMissed` are the main results for it.

The layouts and tables of the formats are stated once more in plain numbers, apart from the
functions that write and read them (`Bytes.LittleEndian`, `Transaction.FieldsInOrder` and
`PartsInOrder`, `Headers.RecordOffsets`, `Messages.VersionInOrder` and `KindsByNumber`,
`Packets.FrameInOrder` and `CommandNames`, `Deframer.ActionsInOrder`, `Script.OpcodesByByte`,
`SigHash.CommitmentByNumbers`, `Vm.OpcodesByItems`), so that each round trip is one through the
bytes the formats prescribe.

SHA-256, RIPEMD-160 and the ECDSA check are arbitrary functions of fixed result length
(`Packets.Network.sha256`, `Vm.Crypto`); no law needs collision resistance. What the chain store
needs of a header, its hash and whether it meets its target, is `ChainStore.Rules`;
`ChainStore.RulesOf` is the instance the node uses, and `ChainStore.AnyRunOnTarget` what it
comes to. A network is its magic bytes, genesis hash
and hash function.

In the state machine a step is what one connection does between two points where another may
act: the swap of the flag, the mark on the guard, reading the locator, sending, and dropping the
guard are separate steps; a batch is saved in one, because the original holds the mutex for it.
Runs are arbitrary sequences of steps, with connections lost, reopened under the same number,
and the process restarted. The file a run starts from is arbitrary too: torn, with repeated
records or with records off target. What is proved of the sync role, of messages and actions, of
the target height, and of the order and number of requests holds from any file and through
restarts. Which header a request names is settled from any file within one process, and through
restarts, like the replay of the file, from one of whole records. Only that no header is logged
twice or off target takes a file of which that is already true (`SyncRuns.LogDurable`).

## Where the code does not do what one would expect

Each of these is proved of the code as it is, with the exact condition under which it happens.

- A non-empty input of zero bytes is encoded in Base58 with one `1` too many, and only such an
  input is (`Base58.EncodeVersusStandard`, `Base58.DecodeEncode`, `Base58.EncodeDecode`).
- The filter takes bytes 1 to 20 of any decoded string of 25 bytes or more, whatever its version
  and checksum (`Filter.FilterHashExact`). It is off, and everything is shown, exactly if none of
  the addresses given is Base58 of 25 bytes or more (`Filter.ShowsAllExact`): one mistyped
  address does it (`Filter.MistypedShowsAll`), and so does any number of P2WPKH addresses
  (`Filter.OnlySegwitShowsAll`).
- Behind a zero marker every flag byte is accepted, not only the 1 of BIP 144: 1 with witnesses,
  any other without (`Transaction.EveryFlagAccepted`, `Transaction.StandardExact`). With flag 0,
  and with no other, the marked form reads as the same transaction as the legacy form
  (`Transaction.FormsAgree`, `Transaction.FlagZeroAccepted`).
- A packet that is refused stays at the front of the pending bytes for ever: nothing received
  after it is delivered (`Refusals.RefusedBlocks`). Of a complete packet, and of one of whose
  checksum nothing has arrived, this is so exactly if the magic is wrong, the name is not text or
  cannot become text, the length is too small for the name, the checksum is wrong or the payload
  is unreadable (`Refusals.BlockedExact`). One wrong byte does it (`Refusals.WrongByteBlocks`),
  the header of a `ping` of three bytes (`Refusals.ShortPingBlocks`), or one damaged `verack`
  (`Refusals.DamagedVerackBlocks`).
- A user agent does not survive encoding exactly if it has more than 255 bytes, as its length is
  cut to one byte (`Messages.VersionRoundTrip`).
- The parent test never decides: in any state a run can reach, a header whose parent is cached
  passes it, since headers are cached under their own hash, and one whose parent is unknown is
  not tested (`ChainStore.SaveRefinesLog`, `ChainStore.SaveMirrors`). The log is therefore a set
  of headers that each meet their target, not a linked chain; `ChainStore.SaveOne` says exactly
  when a link is missing.
- A rejected batch is undone exactly if its first new header is the one that misses its target;
  otherwise the good headers before that one stay, in memory and in the file
  (`ChainStore.RejectedBatch`), as after one good and one bad (`ChainStore.HalfSaved`).
- After a torn tail has been loaded, the next header is written behind the torn bytes, and the
  file replays to what memory holds only by coincidence (`ChainStore.TornTailAppend`): one torn
  byte is enough (`ChainStore.TornByteMisframes`).
- The height a version message reports is the one it states exactly if that is not negative
  (`Deframer.HeightReported`; -1 becomes 4294967295, `Deframer.HeightMinusOne`). Once a negative
  one has been acted on, the target height stays at 2^31 or above for the life of the process
  (`SyncRuns.NegativeHeightStays`) and no real height moves it (`SyncRuns.RealHeightsIgnored`).
- The role holder goes on asking exactly after an accepted batch of 2000 headers that made the
  log longer (`SyncRuns.AsksOn`). So a full batch that another connection has saved first ends its asking,
  while it keeps the role (`SyncRuns.SecondSaverStalls`), and from then on nobody asks, until the
  holder saves a full batch with something new or its connection ends
  (`SyncRuns.DormantRoleSilent`).
- The project's own overview promises limits of 520 bytes an item and 1000 items and a clean
  stack. None is in force (`Vm.PushesUnchecked`, `Vm.LimitsExceeded`, `Vm.DepthPassed`). A run that
  succeeds keeps to them throughout exactly if it starts on small items, pushes only such, and
  the program does not rise too high above its start (`Vm.LimitsExact`).

## Model

| member | source | states |
|---|---|---|
| Base58.BufferSuffices | primitives/src/codec.rs:87 | 58^n is at most 256^(733n/1000 rounded down + 1) for every n: the decoder's fixed buffer is large enough for every string |
| Base58Codec.ValueFits | primitives/src/codec.rs:87-102 | the value of any alphabet string, and of each of its prefixes, fits the buffer sized for the string |
| Base58Codec.MultiplyAdd | primitives/src/codec.rs:96-101 | the inner loop turns the number in the buffer into 58 times it plus the digit, and nothing is carried out of the top byte |
| Base58Codec.FillBuffer | primitives/src/codec.rs:88-102 | the character loop succeeds exactly on alphabet strings, leaves the value of the whole string in the buffer and has counted its leading ones |
| Base58Codec.DecodeBase58 | primitives/src/codec.rs:85-107 | the decoder computes the positional definition of section 4 of draft-msporny-base58, and refuses exactly the strings with a foreign character |
| Base58Codec.DecodeOver | primitives/src/codec.rs:85-107 | the same for any ascending alphabet of 58 characters |
| Base58Codec.DivideBy58 | primitives/src/codec.rs:121-132 | one pass is exact division: shortest quotient bytes and remainder of the payload's value |
| Base58Codec.EmittedStep | primitives/src/codec.rs:120-133 | each pass makes the payload's value smaller, or the payload shorter at value zero, and takes off exactly the last digit still to come |
| Base58Codec.EncodeBase58 | primitives/src/codec.rs:110-141 | the encoder terminates with leading ones for leading zeros, then the base-58 digits of the value, where a non-empty value zero has one digit |
| Base58Codec.EncodeOver | primitives/src/codec.rs:110-141 | the same for any alphabet of 58 characters |
| Base58.EncodeVersusStandard | primitives/src/codec.rs:110-141 | the encoding is that of section 3 of draft-msporny-base58 if and only if the data is not a non-empty run of zeros, when it is that of one zero more |
| Base58.DecodeEncode | primitives/src/codec.rs:85-141 | decoding an encoding gives the data back if and only if the data is not a non-empty run of zeros; n zeros come back as n + 1 |
| Base58.EncodeDecode | primitives/src/codec.rs:85-141 | encoding what an alphabet string decodes to gives the string back if and only if it is empty or has a character other than the first |
| Base58.StandardInverse | primitives/src/codec.rs:85-141 | the two reference definitions are inverse to each other on all data and all alphabet strings |
| Base58.EncodeInjective | primitives/src/codec.rs:110-141 | different data never share an encoding, the zero-byte exception included |
| Base58.DecodeByPlaces | primitives/src/codec.rs:94-102 | decoding an alphabet string with one more character gives 58 times the value and that character's place |
| Base58.DecodeLead | primitives/src/codec.rs:88-106 | a first character of place zero decodes to one zero byte in front of the rest, any other to no leading zero byte, and nothing to nothing |
| Base58.AlphabetMembers | primitives/src/codec.rs:86 | the alphabet is the ASCII digits and letters without 0, I, O and l (and ascending, by `Base58.AlphabetIsAlphabet`) |
| Addresses.EncodeBase58Check | primitives/src/codec.rs:146-155 | encodes version, payload and the first four bytes of their double hash |
| Addresses.AddressOfScript | primitives/src/codec.rs:158-169 | the address, or none, that the recognised script forms determine |
| Addresses.AddressInjective | primitives/src/codec.rs:146-169 | two recognised scripts, of whatever of the three kinds, with the same address are the same script |
| Addresses.AddressUnique | primitives/src/codec.rs:146-169 | the same for the alphabet of the code: no two scripts are displayed under one address |
| Addresses.AddressByBytes | primitives/src/codec.rs:146-169 | the three script forms, byte for byte, have as address version 0x00 or 0x05, hash and double-hash checksum in Base58, or the text prefix and the hash in hexadecimal |
| Addresses.AddressedForms | primitives/src/codec.rs:158-169 | a script with an address is one of these three around some hash of 20 bytes |
| Filter.TrackedHashes | node/src/main.rs:121-134 | tracks the hashes of those arguments that decode to 25 bytes or more, in order |
| Filter.TrackedOf | node/src/main.rs:121-134 | the same with the alphabet of the code |
| Filter.FilterHashExact | node/src/main.rs:121-134 | which Base58 encodings are tracked (25 bytes or more, or 24 zero bytes), and that the hash is bytes 1 to 20 whatever version and checksum are |
| Filter.AddressTracked | node/src/main.rs:121-134 | the address the node shows for a P2PKH or P2SH script is tracked under the hash in that script; that of a P2WPKH script is not tracked |
| Filter.HashesExact | node/src/main.rs:121-134 | a hash is tracked if and only if some given address decodes to it |
| Filter.MatchesFilter | node/src/protocol.rs:261-279 | with a filter, a transaction is shown exactly when some output script contains some tracked hash, inventories and requests never, all else always |
| Filter.ShownWhy | node/src/protocol.rs:261-279 | with a filter, a transaction that is shown has an output whose script holds a tracked hash as 20 bytes in a row |
| Filter.ShownIf | node/src/protocol.rs:261-279 | and any such transaction is shown |
| Filter.OthersShown | node/src/protocol.rs:261-279 | with a filter inventories and requests for data are hidden; without one nothing is; every other message but a transaction is always shown |
| Filter.ShownFor | node/src/main.rs:121-134 | with some address tracked, a transaction is shown only if an output script holds bytes 1 to 20 of what one of the addresses given decodes to |
| Filter.TrackedNeverMissed | node/src/protocol.rs:261-279 | if the address of a P2PKH or P2SH script was asked for, every transaction paying that script, or the same hash in another form, is shown |
| Filter.ShowsAllExact | node/src/main.rs:121-134 | every message is shown, whatever it is, if and only if each address given has a foreign character or decodes to fewer than 25 bytes |
| Filter.MistypedShowsAll | node/src/main.rs:121-134 | one mistyped address, given alone, switches the filter off |
| Filter.OnlySegwitShowsAll | node/src/main.rs:121-134 | when only P2WPKH addresses are given nothing is filtered |
| Filter.DisplayedNeverMissed | node/src/protocol.rs:261-279 | a P2PKH or P2SH address as the node displays it, asked for on the command line, is never missed |
| Varint.VarintRoundTrip | primitives/src/codec.rs:29-82 | reading a written count gives it back and leaves what follows |
| Varint.VarintMinimal | primitives/src/codec.rs:29-82 | what is read fits 64 bits, and the writer uses the shortest of all forms the value can be read from |
| Varint.FormsByMarker | primitives/src/codec.rs:29-82 | below 253 the byte itself, then 0xFD, 0xFE and 0xFF before 2, 4 and 8 bytes, low byte first; 0xFD is read so for small numbers too |
| Varint.ReadVarint | primitives/src/codec.rs:29-50 | the reader agrees with the parser on success, value and bytes left |
| Varint.WriteVarint | primitives/src/codec.rs:69-82 | the writer appends the count's encoding |
| Transaction.LegacyRoundTrip | primitives/src/transaction.rs:54-124 | reading a legacy encoding in front of any bytes consumes just it and gives the transaction with flag 0 and no witness, for every transaction with an input |
| Transaction.LegacyPrefixFree | primitives/src/transaction.rs:107-124 | no legacy encoding is a prefix of another one |
| Transaction.MarkedRoundTrip | primitives/src/transaction.rs:66-103 | reading the form of BIP 144, section "Serialization", in front of any bytes gives every field back, one witness stack per input |
| Transaction.FormsDisjoint | primitives/src/transaction.rs:66-74 | no byte string starts with a legacy and with a marked encoding |
| Transaction.EveryFlagAccepted | primitives/src/transaction.rs:66-98 | behind a zero marker every flag byte is accepted, with one witness stack per input for flag 1 and with no witness for any other |
| Transaction.StandardExact | primitives/src/transaction.rs:66-98 | what is read is a legacy transaction from unmarked bytes or one with witnesses from marked bytes if and only if there is no zero marker or the flag is 1 |
| Transaction.FormsAgree | primitives/src/transaction.rs:66-124 | the legacy and the marked form of a transaction, which always differ, are read as the same if and only if its flag is zero |
| Transaction.FlagZeroAccepted | primitives/src/transaction.rs:66-74 | a transaction without witnesses is read back from its marked form with flag zero |
| Transaction.ParseTxExact | primitives/src/transaction.rs:54-104 | whatever is read has inputs and one stack per input or no witness, and the bytes read are its encoding in the form recognised, or a longer spelling of it |
| Transaction.PartsInOrder | primitives/src/transaction.rs:107-124 | version, inputs, outputs and lock time; the marked form has in addition a zero byte and the flag after the version and the stacks before the lock time |
| TransactionIo.ReadTx | primitives/src/transaction.rs:54-104 | the cursor-driven reader agrees with the parser on success, transaction and bytes left |
| TransactionIo.ReadTxIn | primitives/src/transaction.rs:189-200 | the same for one input |
| TransactionIo.ReadTxOut | primitives/src/transaction.rs:213-223 | the same for one output |
| TransactionIo.ReadTxMessageWitness | primitives/src/transaction.rs:225-243 | the same for one witness stack |
| TransactionIo.EncodeLegacy | primitives/src/transaction.rs:107-124 | the writer appends the legacy encoding and nothing else |
| SigHash.EditedRefinesStream | primitives/src/transaction.rs:134-185 | for every hash type, serializing the edited copy gives byte for byte what a one-pass serializer of the original transaction writes |
| SigHash.CommitmentExact | primitives/src/transaction.rs:127-186 | two calls hash equal bytes if and only if they agree on the hash type and on just what it commits to, for ALL, NONE and SINGLE, each with and without ANYONECANPAY |
| SigHash.CommitmentByNumbers | primitives/src/transaction.rs:127-186 | the same in numbers, both directions: hash type modulo 32 equal to 2 commits to no output, 3 to the one at the index, anything else to all of them and to all sequences; with bit 0x80 only the input at the index is committed, without it all outpoints are |
| SigHash.NoneLeavesOutputs | primitives/src/transaction.rs:148-154 | at hash type 2 modulo 32 any two output lists give equal preimages |
| SigHash.SignedByNumbers | primitives/src/transaction.rs:134-185 | what is hashed twice, field by field: the legacy form of a copy whose inputs, scripts, sequences and outputs are cut, emptied or zeroed as the number of the hash type says, and that number in four bytes |
| SigHash.ConstantByNumbers | primitives/src/transaction.rs:128-161 | without an input at the index, or at 3 modulo 32 without an output there, the hash is a one and 31 zeros |
| SigHash.CalculateSignatureHash | primitives/src/transaction.rs:127-186 | the clone-and-edit code returns the double hash of the one-pass serialization, or the constant of the two early returns |
| Script.ParseScript | script-engine/src/lib.rs:241-424 | the loop terminates on all bytes with the instructions of the tokenizer function |
| Script.ConcatExact | script-engine/src/lib.rs:241-424 | parsing distributes over everything that may be appended to a script if and only if the script does not end inside a push |
| Script.ParseConcat | script-engine/src/lib.rs:241-424 | for such a script, the parse of it with any other appended is the two parses in a row |
| Script.TruncatedPush | script-engine/src/lib.rs:253-281 | a script that ends inside a push gives the instructions before that push and one invalid opcode |
| Script.ParsePrint | script-engine/src/lib.rs:241-424 | parsing the canonical printing of any list of producible instructions gives the list back |
| Script.ParseProducible | script-engine/src/lib.rs:241-424 | everything a parse gives is producible, so the printer covers the parser's whole range |
| Script.PrintShortest | script-engine/src/lib.rs:253-281 | the canonical printing of what was parsed is the shortest script that parses so |
| Script.OpcodesByByte | script-engine/src/lib.rs:241-424 | each byte that is no push is one instruction: the executed opcodes, the reserved ranges and 0xff by number |
| Script.PushesByByte | script-engine/src/lib.rs:253-281 | the four push encodings by marker byte and length bytes, in front of any script |
| Vm.RunConcat | script-engine/src/lib.rs:574-584 | executing p then q is executing their concatenation, errors included |
| Vm.Frame | script-engine/src/lib.rs:139-238 | a run that does not underflow does the same on top of any other stack, with the same error if any |
| Vm.DepthExact | script-engine/src/lib.rs:139-238 | for programs of implemented instructions, short of a failing EQUALVERIFY, a run underflows if and only if it starts below a statically computed depth; success changes the depth by a static amount |
| Vm.PushesUnchecked | script-engine/src/lib.rs:574-584 | any number of pushes of any size, on any stack, succeeds and leaves them all: no limit on elements or depth, no clean stack |
| Vm.LimitsExact | script-engine/src/lib.rs:574-584 | a successful run keeps to the promised limits on items and depth at every moment if and only if it starts on small items, pushes only such, and start and static peak together are at most 1000; it ends on a clean stack if and only if the static change says so |
| Vm.LimitsExceeded | script-engine/src/lib.rs:574-584 | 1001 items of 521 bytes are left without an error |
| Vm.DepthPassed | script-engine/src/lib.rs:574-584 | a run over 1002 items that ends with 998 succeeds, past the limit on the way |
| Vm.EqualVerifyIsEqual | script-engine/src/lib.rs:175-198 | EQUALVERIFY passes exactly when EQUAL would leave true, and takes that item off; both underflow alike |
| Vm.EqualExact | script-engine/src/lib.rs:157-187 | EQUAL leaves true for two items exactly if they are equal, so always for an item and its copy |
| Vm.OpcodesByItems | script-engine/src/lib.rs:139-238 | what each implemented opcode does to the items on top, spelled out: a small number pushes its byte, zero an empty item, -1 the byte 0x81; CHECKSIG leaves [1] if and only if the signature is not empty and verifies, without its last byte, over the signature hash of that byte |
| Vm.OpcodesNeedItems | script-engine/src/lib.rs:139-238 | with too few items each of them underflows and leaves the stack |
| Vm.OthersFail | script-engine/src/lib.rs:139-238 | every other opcode fails as not implemented and leaves the stack |
| Vm.ParseP2pkh | script-engine/src/lib.rs:241-424 | the bytes of a pay-to-public-key-hash script parse to its five instructions |
| Vm.P2pkhExact | script-engine/src/lib.rs:139-238 | two pushes and the parsed script fail exactly when the key's SHA-256 and RIPEMD-160 is not the script's hash; else one item is left, [1] exactly when the signature is not empty and the ECDSA check passes it, without its last byte, over the signature hash of that byte, and [] otherwise |
| Vm.P2pkhCommitment | script-engine/src/lib.rs:199-233 | such a spend has the same outcome in any two transactions that agree on what its hash type commits to, in any two where the constant is signed, and in all with an empty signature |
| Vm.ExecutionContext.ExecuteOp | script-engine/src/lib.rs:139-238 | the in-place operation leaves the stack and the error of the instruction function, the transaction context untouched |
| Vm.ExecutionContext.Execute | script-engine/src/lib.rs:574-584 | the loop leaves the stack and the first error of the program's run |
| Headers.RecordRoundTrip | primitives/src/messages.rs:197-241 | reading a header's 80 bytes in front of any others gives the header and leaves them |
| Headers.RecordExact | primitives/src/messages.rs:197-241 | any 80 bytes read as a header are that header's bytes |
| Headers.RecordOffsets | primitives/src/messages.rs:228-241 | version at 0, previous block at 4, merkle root at 36, time at 68, bits at 72, nonce at 76, integers low byte first and the version in two's complement |
| Headers.WriteRecord | primitives/src/messages.rs:228-241 | the filled array is the concatenation of the header's six fields |
| Headers.ReadRecord | primitives/src/messages.rs:197-226 | the reader agrees with the parser on success, header and bytes left |
| Headers.ReadWire | primitives/src/messages.rs:164-195 | the same for the wire form, whose count is read and dropped (`Messages.HeadersRead` says what that means for a list) |
| Headers.GetTargetBytes | primitives/src/messages.rs:247-258 | the three stores give the mantissa's bytes at the place the exponent names, zeros elsewhere and for exponents outside 3 to 32 |
| Headers.TargetNumeric | primitives/src/messages.rs:247-258 | these bytes, read little-endian, are mantissa times 256^(exponent - 3), or zero |
| Headers.ProofOfWorkNumeric | primitives/src/messages.rs:260-265 | the reversed byte comparison accepts if and only if the double SHA-256 of the 80 bytes, as a little-endian number, is at most that target, given by the low three bytes of bits and the exponent above them |
| ChainStore.SaveRefinesLog | node/src/protocol.rs:83-117 | saving moves memory and file together as a log of distinct headers that meet their target, adds what it reports, keeps the good part of a rejected batch, and never rejects for a parent |
| ChainStore.SaveMirrors | node/src/protocol.rs:83-117 | from any file at all, memory goes on mirroring what was loaded and saved, and the file gains just the records of what was saved |
| ChainStore.RejectedBatch | node/src/protocol.rs:99-103 | a rejected batch leaves the state unchanged if and only if its first new header is the one that misses its target |
| ChainStore.HalfSaved | node/src/protocol.rs:99-103 | a good header followed by a bad one is rejected and the good one stays, in memory and in the file |
| ChainStore.SaveOne | node/src/protocol.rs:40-53 | a header is rejected exactly if it is new and misses its target, added exactly if new and on target, whoever its parent is; a linked log stays linked exactly if what is added has a known parent or the root for one |
| ChainStore.ReplayMirrors | node/src/protocol.rs:55-81 | loading a file that records what memory mirrors rebuilds cache, height and best hash, with repeated and off-target headers or without |
| ChainStore.ReplayRebuilds | node/src/protocol.rs:55-81 | of a log it rebuilds a log |
| ChainStore.TornTailLoads | node/src/protocol.rs:66-80 | loading any byte prefix of a log gives the state of its first len / 80 headers |
| ChainStore.TornTailAppend | node/src/protocol.rs:87-111 | after a torn tail, the file with the next header appended replays to the log with it if and only if the torn bytes and the record happen to begin with the record |
| ChainStore.TornByteMisframes | node/src/protocol.rs:87-111 | behind one torn byte that is not the record's first the next header does not replay |
| ChainStore.SaveSplits | node/src/protocol.rs:94-111 | saving a batch is saving its parts in turn, rejection included |
| ChainStore.SaveAgain | node/src/protocol.rs:94-98 | saving an accepted batch again adds 0 and changes nothing |
| ChainStore.AnyRun | node/src/protocol.rs:40-117 | after any run of batches, restarts and target changes: records with distinct hashes that meet their targets, a cache of just these under their hashes, height, best hash and replay all in step |
| ChainStore.AnyRunOnTarget | node/src/protocol.rs:40-117 | with the node's own hash and target test: every header in file and cache hashes, as a number, to at most the target it states |
| HeaderStore.ChainState.LoadHeaders | node/src/protocol.rs:55-81 | the read loop reaches the state the load function gives for the file, and returns the number of whole records |
| HeaderStore.ChainState.SaveNewHeaders | node/src/protocol.rs:83-117 | the loop over the batch, with its buffered writer, reaches the state and the result of the save function |
| Text.LossyExact | primitives/src/messages.rs:98 | the repair of a user agent's bytes changes nothing if and only if they are UTF-8 |
| Text.LossyOfCut | primitives/src/messages.rs:98 | UTF-8 cut anywhere grows by two bytes at most when it is repaired |
| Text.CodePointRead | primitives/src/messages.rs:98 | the bytes of every code point but a surrogate, by section 3 of RFC 3629, are one character |
| Text.CharIsCodePoint | primitives/src/messages.rs:98 | and every character is those of such a code point |
| Text.RepairByByte | primitives/src/messages.rs:98 | a byte that starts no character becomes EF BF BD, a character is kept, and one broken off by the end becomes one EF BF BD |
| Messages.VersionRoundTrip | primitives/src/messages.rs:54-117 | a written version message is read back, in front of any bytes, if and only if its user agent has at most 255 bytes |
| Messages.InventoryForwarded | primitives/src/messages.rs:486-530 | an inventory that was read is written by `getdata` as the shortest spelling of the bytes it came from, and has at most 50,000 entries |
| Messages.InventoryRead | primitives/src/messages.rs:486-505 | a written inventory of up to 50,000 entries is read back entry for entry, whatever follows |
| Messages.HeadersRead | primitives/src/messages.rs:268-278 | the bytes of a count, then of each header and any count of transactions, then any others, are read as just those headers and leave the others |
| Messages.ReadVersion | primitives/src/messages.rs:71-117 | the reader agrees with the parser on success, message with repaired user agent, and bytes left |
| Messages.WriteVersion | primitives/src/messages.rs:54-69 | appends the message's encoding |
| Messages.ReadInv | primitives/src/messages.rs:486-505 | the reader agrees with the parser, the limit on entries included |
| Messages.ReadHeaders | primitives/src/messages.rs:268-278 | the reader agrees with the parser on success, headers and bytes left; that parser reads every list of headers back, whatever the counts between them (`Messages.HeadersRead`) |
| Messages.WriteInventory | primitives/src/messages.rs:514-530 | appends the inventory's encoding |
| Messages.WriteGetHeaders | primitives/src/messages.rs:137-145 | appends the locator message's encoding |
| Packets.ForgePacket | node/src/protocol.rs:427-444 | magic, name cut or padded to 12 bytes, length, checksum, payload |
| Packets.FrameInOrder | node/src/protocol.rs:427-444 | the magic, the name and zeros up to 12 bytes, the length low byte first, the first four bytes of the payload's double SHA-256, the payload |
| Packets.RequestBytes | node/src/protocol.rs:427-444 | the packet that asks for headers, byte for byte: "getheaders", length 69, checksum, version 70015, one locator, 32 zeros |
| Packets.ForgeRead | node/src/protocol.rs:231-259 | a forged packet, whatever follows, is taken off whole and means what its name and payload do |
| Packets.EncodeRead | node/src/protocol.rs:225-259 | an encoded message, whatever follows, is read back as itself and consumed to its last byte if and only if it is a version with a user agent up to 255 bytes, verack, ping, pong, or unknown by the name "unknown" |
| Packets.HeadersDelivered | node/src/protocol.rs:231-259 | a packet named "headers" delivers the headers in it, whatever the counts between them and whatever follows |
| Packets.InvDelivered | node/src/protocol.rs:231-259 | one named "inv" its entries, up to 50,000 |
| Packets.TxDelivered | node/src/protocol.rs:231-259 | one named "tx" its transaction, in the legacy form or in that of BIP 144 |
| Packets.OtherNames | node/src/protocol.rs:391-421 | any name but the seven known ones is delivered as an unknown message |
| Packets.ReadPacket | node/src/protocol.rs:231-259 | agrees with the packet function on acceptance, message and length |
| Packets.ReadMessage | node/src/protocol.rs:391-421 | the readers behind each command give what the payload's parser gives |
| Packets.EncodeMessage | node/src/protocol.rs:169-229 | the packet of a message's command and payload |
| Deframer.DrainExtends | node/src/main.rs:261-272 | bytes that arrive later never change what was taken off before |
| Deframer.ChunkIndependent | node/src/main.rs:254-273 | however a stream is cut into reads, the messages delivered and the bytes left pending are those of the stream at once |
| Deframer.DrainConserves | node/src/main.rs:261-272 | the bytes received are the packets of the messages delivered, end to end, and the bytes left; each such packet alone reads as its message, and no further one can be taken off |
| Refusals.RefusedBlocks | node/src/protocol.rs:231-259 | behind a packet with wrong magic, a name that is not or cannot become text, a length too small for its name, a wrong checksum or an unreadable payload nothing is ever delivered |
| Refusals.ShortestPayload | node/src/protocol.rs:391-421 | a payload shorter than 8 bytes for ping and pong, 86 for version, 51 for tx and 1 for inv and headers is unreadable |
| Refusals.BlockedExact | node/src/protocol.rs:231-259 | of a complete packet, and of one of whose checksum nothing has arrived: nothing is ever delivered, whatever follows, if and only if one of these guards fails |
| Refusals.WrongByteBlocks | node/src/protocol.rs:236-238 | one wrong byte at the start of a stream blocks the connection |
| Refusals.DamagedVerackBlocks | node/src/protocol.rs:251-255 | so does a verack with a damaged checksum, whatever is encoded after it |
| Refusals.ShortPingBlocks | node/src/protocol.rs:393-397 | so does the header of a ping that claims three bytes of payload |
| Deframer.EncodedStream | node/src/protocol.rs:225-259 | any sequence of such encoded messages is delivered as just that sequence, before whatever follows |
| Deframer.RepliesReadable | node/src/protocol.rs:182-221 | every reply is one that the same code at the other end reads back, but for the request of an inventory |
| Deframer.HeightReported | node/src/protocol.rs:189-192 | the height reported is the one stated if and only if that is not negative, else 2^32 more |
| Deframer.HeightMinusOne | node/src/protocol.rs:189-192 | a start height of -1 is reported as 4294967295 |
| SyncNode.StepKeepsRole | node/src/main.rs:242-378 | from any chain and any file, every step of every connection, every loss and restart keeps the role and the books in order |
| SyncNode.StepKeepsProgress | node/src/main.rs:315-378 | from any file, every step, restarts included, keeps the requests in order, memory mirroring the log and the file as long as the log |
| SyncNode.StepKeepsLocators | node/src/main.rs:353-378 | every step of a process, and a restart from whole records, keeps each locator the newest header of its moment |
| SyncNode.StepKeeps | node/src/main.rs:242-378 | from any file, every step keeps role, books and requests in order |
| SyncRuns.RoleExclusive | node/src/main.rs:45-58 | over every run at most one connection holds the role, the flag is up exactly while one does, and with all connections dropped it is down |
| SyncRuns.OnlyOwnerAsks | node/src/main.rs:315-334 | a step that adds a request is a step of the one connection that took the role last and still holds it, and what that connection sends is the `getheaders` for the locator it read |
| SyncRuns.StandbySilent | node/src/main.rs:324-334 | a connection without the role has never sent a `getheaders` |
| SyncRuns.RequestsProgress | node/src/main.rs:315-378 | over every run, whatever the file and through restarts, requests never go back in height and rise strictly within a tenure, which is one connection's; they number at most the times the role was taken plus the headers added |
| SyncRuns.ProcessRequestsLocated | node/src/main.rs:353-378 | each request of a process, whatever its file, names the newest header of its moment, the genesis hash or a logged one |
| SyncRuns.RequestsAcrossRestarts | node/src/main.rs:353-378 | so do those of all processes together, the first having found whole records |
| SyncRuns.AsksOn | node/src/main.rs:315-323 | left alone after a batch, a connection ends if and only if a header of it was rejected, and sends a `getheaders` if and only if it holds the role and the batch was accepted, had 2000 headers and made the log longer |
| SyncRuns.SecondSaverStalls | node/src/main.rs:315-323 | after a full batch another connection has just saved, the holder sends nothing and keeps the role |
| SyncRuns.DormantRoleSilent | node/src/main.rs:315-334 | over every run, once the holder is not about to ask, nobody asks until it saves a full batch with something new or its connection ends |
| SyncRuns.EveryMessageOnce | node/src/main.rs:250-273 | whatever the others do, a connection waiting for bytes has delivered just the messages of all it received and taken each of their actions once, in order; apart from requests for headers it has sent at every moment just the replies of its actions, in order |
| SyncRuns.ChainDurable | node/src/protocol.rs:83-117 | at every moment of every run from whole records, repeated or off target or not, the file replays to what memory holds, and nothing saved is lost |
| SyncRuns.LogDurable | node/src/protocol.rs:83-117 | from distinct headers on target, log and file stay so, and the cache holds as many |
| SyncRuns.ProcessKeepsFile | node/src/protocol.rs:55-117 | whatever file a process starts from, it stays as it was with just the records of what is saved behind it, and memory mirrors what was loaded and saved |
| SyncRuns.TargetMoves | node/src/main.rs:309-314 | the target height of a process never falls, and moves only to a height a connection just reported |
| SyncRuns.TargetCovers | node/src/main.rs:309-314 | over every run the target is at least every height a live connection has reported |
| SyncRuns.NegativeHeightStays | node/src/main.rs:309-314 | once a negative start height has been acted on, the target stays at 2^31 or above for the life of the process |
| SyncRuns.TaskSettles | node/src/main.rs:254-275 | no task gets stuck or runs for ever: left alone it comes to wait for bytes or ends, disturbing no other |
| SyncRuns.RoleReleasable | node/src/main.rs:51-58 | from any state with the role in order the holder's own steps and the loss of its connection bring the flag down |
| SyncRuns.RoleTaken | node/src/main.rs:324-329 | a verack taken up while the flag is down makes its connection the holder, which left alone asks for headers from the newest there is |
| Session.Connection.OnRead | node/src/main.rs:254-273 | the receive loop's code, run straight through, makes only its own steps of the state machine from the read to the next wait or to closing; it goes on waiting if and only if the read was not empty and no batch of its messages was rejected |
| Session.Connection.HandlePeerActions | node/src/main.rs:295-338 | the action loop does the same for a message's actions: it succeeds if and only if no batch is rejected, and otherwise takes the actions up to the first rejected batch and none after it |
| Session.Connection.SaveBatch | node/src/main.rs:315-323 | succeeds if and only if the log accepts the batch, which leaves the log longer by it or by its part before the rejected header; and, for the holder after a full batch with something new, asks on |
| Session.Connection.TryBecome | node/src/main.rs:324-334 | the swap, the mark and the first request |
| Session.Connection.Drop | node/src/main.rs:51-58 | the flag comes down exactly if this connection held the role |
| Session.ReadHandled | node/src/main.rs:254-273 | from a state in order, a read so handled leaves one in order in which the connection's messages are those of all its bytes |

## Left out

- Input and output errors, timeouts and sleeps: a connection may be lost at any read, write or opening of the file; a write to the file that fails half way is not modelled.
- A missing `headers.dat` is an empty file.
- Allocation: a count too large to reserve room for ends the original's task, where the model reads on and fails for want of bytes.
- A reader's position after a failed read, which no caller looks at.
- Panics and a poisoned mutex.
- TransactionIo.EncodeLegacy: vectors are assumed shorter than 2^64, as all are.
- SigHash.CalculateSignatureHash: the copy is edited field by field on values, so that the original is unchanged is immediate.
- Script.ParseScript: opcodes the machine does not execute are told apart by their byte, not by the names of the enumeration.
- Session.Connection.OnRead: writes always succeed in this straight-line form; their failures are steps of the state machine.
- Refusals.BlockedExact: not stated for a packet of which part of the checksum has arrived but not the whole payload; whether such a one can still be completed depends on there being a payload with that checksum.
- The opening version message with its clock and fixed fields; what a connection sends is recorded from there on.
- `getheaders` and `getdata` are only written; the original reads them as unknown commands.
- Inventories, transactions and headers are never sent; their encoding has no payload.
- Height: counted in 32 bits and wrapping, as in the original; requests are ordered by the length of the log instead.
- Difficulty retargeting, choice between branches, script limits, control flow and all other opcodes: the original has none of them.
- The terminal interface, display formats, logs, command line, peer discovery, ports, and the tables of network constants.

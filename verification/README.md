# A verified model of a distributed hash table node

This project models the logic of a small distributed hash table node written in C, and proves what its
parts promise. Check it with `dafny verify dfyconfig.toml`.

| files | what they model |
|---|---|
| `Sha1Spec.dfy`, `Sha1.dfy` | SHA-1: FIPS 180-4 as a definition, and the streaming code proved equal to it |
| `Sha1Vectors.dfy` | the standard's two examples, worked out round by round |
| `IniSpec.dfy`, `Ini.dfy` | the INI parser: a fold over the units it reads, and the buffer-chopping code proved equal to it |
| `IniGrammar.dfy` | what a line says: a grammar of its pieces, which the parser reads exactly |
| `IniLines.dfy`, `IniTheorems.dfy` | when a unit is a line, and what a parse means |
| `NodeConfig.dfy`, `ConfigLaws.dfy` | the configuration handler and its seed list, and what values say by their characters |
| `Queue.dfy`, `ServerQueue.dfy` | the work queue on the heap, and that it holds the server's queue in every run |
| `Server.dfy`, `ServerTheorems.dfy` | the main thread and the workers as a transition system, and what holds of every run |
| `Buckets.dfy`, `Chains.dfy`, `Store.dfy` | the bucketed key-value store, and the bucket arithmetic |
| `StoreThreads.dfy` | puts and gets of many threads under the per-bucket locks |
| `PeerList.dfy`, `PeerCodec.dfy`, `LookupTable.dfy` | the peer table: any number of operations, its byte form, the linked list |
| `Packet.dfy`, `PacketText.dfy`, `RequestHandler.dfy` | the datagram format, the log line of a packet, and the request and response law |
| `Bytes.dfy`, `Decimals.dfy`, `Options.dfy` | bytes, fixed-width integers, decimal numerals, `Option` |

## The machine

Bytes are 8 bits, `char` is signed, `int` has 32 bits, `size_t` has 64, memory is little-endian. Unsigned
arithmetic wraps where the code's does: the SHA-1 words and bit counter, `j + len` and `i + 63` in
`SHA1Update`, the bucket index, the size arithmetic of the peer table. A C string is a sequence without NUL.
`atoi` is `strtol` cut to 32 bits, and `strtol` stops at the ends of 64. Shared memory is sequentially
consistent.

Where the code would write or read outside its memory the model ends with an outcome of its own: `Overrun`
for the text buffer of the request handler, `Outside` for the peer table's reader.

The node's hash is a parameter. So is the INI handler: a function of all the calls made so far, the current
one last, which covers every handler whose answers depend on what it has been called with. A datagram's
arrival and a reply's departure are steps of the server.

## What the code does not do

* SHA-1: `SHA1Update` works exactly when the bytes already buffered and the new ones together number less
  than 2^32 (`Sha1.UpdateLimitIsExact`). `SHA1`, which feeds one byte at a time, works for every length it
  accepts.
* Store: the length argument of `SHA1` has 32 bits, so a key of 2^32 bytes or more is hashed by a prefix
  (`Store.DigestOfLongKey`), and has the digest of a shorter key (`Store.LongKeysCollide`). The store is a map
  over digests, not over keys.
* Store: the bucket index is the digest modulo the bucket count, as a number with signed digits, exactly when
  the count divides 2^64 (`Buckets.BucketIsRemainder`). The node's 1024 does.
* Peer table: the duplicate test compares the whole host with stored hosts of at most 45 bytes, so addresses
  stay unique exactly when the host fits or its first 45 bytes are not there already
  (`PeerList.AddKeepsUnique`, `PeerList.LongHostTwice`).
* Peer table: `lookup_table_serialize` asks for the size while it holds the mutex. With the default mutex the
  table creates it never returns; it does exactly when the mutex is recursive
  (`LookupTables.LookupTable.Serialize`). The codec results are about that case.
* Peer table: the length test of `lookup_table_deserialize` keeps its reads inside the data exactly when the
  size it compares with has not wrapped or is still too large (`PeerCodec.LengthTestIsExact`,
  `LookupTables.Deserialize`); 62 bytes that pass it wrongly are in `PeerCodec.WrappedCount`.
* Requests: before it answers, the handler prints the packet into 512 bytes. The text fits exactly when the
  payload has at most 82 bytes, or 83 or 84 and the version, type and request id have few enough digits
  (`PacketText.TextFits`, `PacketText.FitsByLength`). A packet that does not fit is not answered
  (`RequestHandler.ReplyLaw`, `RequestHandler.LongPingIsLost`), and the server comes to rest with every
  request answered exactly when all fit (`ServerTheorems.OverrunExactly`, `ServerTheorems.QuiescentReplies`).
* Requests: the node's own README.md, at its line 116, describes `CMD_ERROR` as the response to a parsing
  failure. The handler builds that packet and returns length 0, so the reply is empty exactly for malformed
  datagrams (`RequestHandler.EmptyReplyLaw`).
* Configuration: an indented line under `SEEDS` is a second `SEEDS` call and replaces the seeds
  (`NodeConfig.IndentedLineReplaces`, `NodeConfig.SeedsLost`, `NodeConfig.SeedLost`). The node has all the
  seeds of its file exactly when no `SEEDS` call before the last has a token with a colon
  (`NodeConfig.SeedsKept`).
* Configuration: in a file with NUL bytes a pass of the parser can take less or more than a line. It takes
  one line exactly when that is shorter than 200 bytes, or no NUL is among its first 199 and, unless it is the
  last, none in the last 15-byte piece of the rest (`IniLines.PassTakesLine`, `IniLines.HiddenNewline`).

## Model

| member | source | states |
|---|---|---|
| `Sha1Spec.ZeroBytesIsPadding` | src/helpers/sha1.c:271-277 | fewer than 64 zero bytes, and they solve the congruence of section 5.1.1 of FIPS 180-4 |
| `Sha1Spec.ZeroBytesIsShortest` | src/helpers/sha1.c:271-277 | no shorter padding solves it |
| `Sha1Spec.PadInjective` | src/helpers/sha1.c:266-278 | two messages below 2^61 bytes with one padded form are equal |
| `Sha1Vectors.ConstantsAreRoots` | src/helpers/sha1.c:52-56 | each round constant is the integer part of 2^30 times the square root of 2, 3, 5 or 10 |
| `Sha1Vectors.RunAt` | src/helpers/sha1.c:48-49 | sixteen words that slide are enough: the alternate method of section 6.1.3 of FIPS 180-4 is the 80-word one |
| `Sha1Vectors.DigestOfAbc` | src/helpers/sha1.c:6-8 | the digest of "abc" is A9993E36 4706816A BA3E2571 7850C26C 9CD0D89D |
| `Sha1Vectors.DigestOfLong` | src/helpers/sha1.c:9-10 | the digest of the 56-byte example, of two blocks, is 84983E44 1C3BD26E BAAE4AA1 F95129E5 E54670F1 |
| `Sha1.ByteSwap` | src/helpers/sha1.c:32-33 | the masked rotations of a little-endian load give the big-endian word |
| `Sha1.RoundIdentities` | src/helpers/sha1.c:52-55 | the rewritten choice and majority expressions are Ch and Maj |
| `Sha1.Mix` | src/helpers/sha1.c:52-56 | the two register assignments of a round macro are the standard's sum and rotation |
| `Sha1.Step1` | src/helpers/sha1.c:52-53 | a macro call with rotated register roles is one round of the standard, rounds 0 to 19 |
| `Sha1.Step2` | src/helpers/sha1.c:54 | the same for rounds 20 to 39 |
| `Sha1.Step3` | src/helpers/sha1.c:55 | the same for rounds 40 to 59 |
| `Sha1.Step4` | src/helpers/sha1.c:56 | the same for rounds 60 to 79 |
| `Sha1.Swap` | src/helpers/sha1.c:32-33 | swapping word i in place turns it into W(i) and leaves the others |
| `Sha1.Expand` | src/helpers/sha1.c:48-49 | overwriting the oldest of sixteen words gives W(i) of the 80-word schedule and keeps the last sixteen |
| `Sha1.R0` | src/helpers/sha1.c:93-108 | one of the first sixteen rounds takes the registers from round i to i + 1 |
| `Sha1.R` | src/helpers/sha1.c:109-172 | so does one of the others, by the macro of its phase |
| `Sha1.Five` | src/helpers/sha1.c:113-172 | five calls bring every register back to its role, five rounds on |
| `Sha1.Transform` | src/helpers/sha1.c:61-184 | for every block and state, the 16-word unrolled method is the 80-word compression |
| `Sha1.Context.constructor` | src/helpers/sha1.c:189-200 | an empty message's context |
| `Sha1.CountAfter` | src/helpers/sha1.c:215-218 | the two count words with their carry are 8 times the new length modulo 2^64 |
| `Sha1.Context.CountData` | src/helpers/sha1.c:215-218 | the same, of the fields |
| `Sha1.UpdateLimitIsExact` | src/helpers/sha1.c:219-232 | a wrapped 32-bit sum would leave a copy that does not fit the buffer, and only then |
| `Sha1.Context.AbsorbBlocks` | src/helpers/sha1.c:222-228 | every whole block is folded in and less than a block is left |
| `Sha1.Context.FillBlock` | src/helpers/sha1.c:222-223 | the block the data completes in the buffer is folded in |
| `Sha1.Context.AbsorbRest` | src/helpers/sha1.c:224-227 | and so is every block that lies in the data, with less than one left |
| `Sha1.Context.AppendTail` | src/helpers/sha1.c:232 | the last copy leaves in the buffer exactly what of the message fills no block |
| `Sha1.Context.Update` | src/helpers/sha1.c:205-233 | appends the data to the message the context stands for |
| `Sha1.Context.StateIsFold` | src/helpers/sha1.c:205-233 | the state is the fold over the complete blocks of the message |
| `Sha1.Context.CountBytes` | src/helpers/sha1.c:266-269 | the eight count bytes are the big-endian bit length |
| `Sha1.Context.PadToLength` | src/helpers/sha1.c:271-277 | appends 0x80 and exactly the shortest run of zeros, and ends |
| `Sha1.Context.StateBytes` | src/helpers/sha1.c:279-283 | the twenty bytes are the five words, big-endian |
| `Sha1.Context.Final` | src/helpers/sha1.c:238-287 | returns the FIPS digest of everything fed in and wipes the context |
| `Sha1.DigestOf` | src/helpers/sha1.c:289-301 | for every string of less than 2^32 bytes, the FIPS digest |
| `Sha1.HashChunks` | src/helpers/sha1.c:205-287 | however a message is cut into updates, the digest is that of the whole |
| `Ini.Rstrip` | src/helpers/ini.c:49-54 | the string in the buffer loses exactly its trailing whitespace; the rest of the buffer stays |
| `Ini.Lskip` | src/helpers/ini.c:57-62 | the string from the result on is the string without leading whitespace |
| `Ini.FindCharsOrComment` | src/helpers/ini.c:67-82 | the first position with one of the characters or an inline comment, or the end |
| `Ini.Strncpy0` | src/helpers/ini.c:86-94 | the buffer reads as the first 49 characters, terminated |
| `Ini.StringReader.Read` | src/helpers/ini.c:289-312 | reads through the newline or up to the limit, whichever is first, terminates it, and advances by that much |
| `Ini.Strlen` | src/helpers/ini.c:141 | the length up to the first NUL, which a NUL in the input puts before the end of what was read |
| `Ini.Parser.constructor` | src/helpers/ini.c:102-122 | the initial state |
| `Ini.Parser.Emit` | src/helpers/ini.c:236-238 | one more call, and the line number recorded if it is the first failure |
| `Ini.Parser.ContinueValue` | src/helpers/ini.c:188-198 | a continuation reports the comment-free rest under the previous name |
| `Ini.Parser.OpenSection` | src/helpers/ini.c:200-218 | a section line sets the cut section and forgets the name, or fails |
| `Ini.Parser.CutPair` | src/helpers/ini.c:221-231 | chopping the buffer leaves the trimmed name and the trimmed comment-free value |
| `Ini.Parser.TakePair` | src/helpers/ini.c:219-252 | a pair is reported and its cut name remembered, or the line fails |
| `Ini.Parser.TakeLine` | src/helpers/ini.c:174-252 | the line in the buffer does to the state what the fold prescribes, BOM included |
| `Ini.Parser.Discard` | src/helpers/ini.c:163-172 | drops pieces through the first that ends a line as a C string, and fails the unit if there was any |
| `Ini.Parser.ParseNext` | src/helpers/ini.c:140-252 | a pass of the main loop takes exactly the next unit and does what the fold does with it |
| `Ini.Parser.ParseStream` | src/helpers/ini.c:97-265 | for every input, NUL bytes included, calls and result are those of the fold over its units; it ends |
| `Ini.ParseString` | src/helpers/ini.c:320-328 | the same for a whole string |
| `IniLines.SplitJoins` | src/helpers/ini.c:289-312 | splitting into lines loses nothing |
| `IniLines.SplitIntoLines` | src/helpers/ini.c:289-312 | the pieces are lines, of which only the last can lack its newline |
| `IniLines.DiscardIsLine` | src/helpers/ini.c:165-171 | the discard loop drops exactly the rest of the line iff the newline is seen or ends the text |
| `IniLines.PassTakesLine` | src/helpers/ini.c:140-172 | a pass takes exactly one physical line iff no NUL is where the code looks for its newline |
| `IniLines.HiddenNewline` | src/helpers/ini.c:165-171 | a text where it takes the next line, too |
| `IniLines.PieceEdge` | src/helpers/ini.c:123-171 | pieces have 15 bytes: a NUL hides the newline up to the 15th, not from the 16th on |
| `IniLines.NulCuts` | src/helpers/ini.c:141 | of a short line the parser sees what is in front of the first NUL |
| `IniLines.UnitsAreLines` | src/helpers/ini.c:140-172 | without NUL bytes the units are the lines, cut to 199 bytes and failed beyond that |
| `IniGrammar.WhitespaceIs` | src/helpers/ini.c:51 | whitespace is tab, newline, vertical tab, form feed, carriage return and blank |
| `IniGrammar.ReadsAs` | src/helpers/ini.c:174-252 | every line of a shape is read as its pieces say: skipped, header, unclosed header, pair, bare words, continuation |
| `IniGrammar.ShapeOf` | src/helpers/ini.c:174-252 | every line has a shape |
| `IniGrammar.GrammarIsExact` | src/helpers/ini.c:174-252 | so the parser takes a line for something iff the grammar does |
| `IniGrammar.BomIsSkipped` | src/helpers/ini.c:175-181 | a byte order mark in front of the first line changes nothing |
| `IniGrammar.UnitLaw` | src/helpers/ini.c:161-251 | section, name, calls and error after a unit, field by field, names cut to 49 characters |
| `IniGrammar.CommentLine` | src/helpers/ini.c:184-186 | a `;` or `#` line, indented or not, and a blank line do nothing but count |
| `IniGrammar.SpellingIsFree` | src/helpers/ini.c:219-239 | lines with one meaning do one thing, however they are spelled |
| `IniGrammar.EntrySpellings` | src/helpers/ini.c:221-231 | `name: value` is the call of `name= value`; whitespace and a remark behind the value make no difference |
| `IniGrammar.IndentedAfterHeader` | src/helpers/ini.c:188-207 | right behind a header an indented line is a pair |
| `IniTheorems.ParseUnitFails` | src/helpers/ini.c:163-251 | a unit fails by length, by syntax or by the handler's answer, and by nothing else |
| `IniTheorems.ErrorIsFirstFailure` | src/helpers/ini.c:121-264 | the result is 0 or the number of the first unit that failed |
| `IniTheorems.PrintedItem` | src/helpers/ini.c:174-252 | a printed header or entry parses to itself in every state |
| `IniTheorems.PrintedThen` | src/helpers/ini.c:140-252 | printed items do what they say, whatever the state and whatever follows them |
| `IniTheorems.PrintedRoundTrip` | src/helpers/ini.c:97-265 | parsing a printed document reports exactly its triples in order, with result 0 iff the handler accepts them all |
| `IniTheorems.PrintedHasNoNul` | src/helpers/ini.c:315-317 | printed documents have no NUL, so their units are their lines |
| `IniTheorems.ItemsContinued` | src/helpers/ini.c:188-198 | an indented line under printed items is one more call, with the section and name they end with |
| `IniTheorems.EntryContinued` | src/helpers/ini.c:188-198 | an entry and an indented line under it are two calls with one name |
| `NodeConfig.TokensBound` | src/core/args.c:22-35 | at most one token more than whitespace characters, so the array is large enough |
| `NodeConfig.CountCapacity` | src/core/args.c:25-32 | the capacity is one more than the whitespace count |
| `NodeConfig.Strtok` | src/core/args.c:40-60 | the next token and the tokens that remain, with the buffer behind it untouched |
| `NodeConfig.TakeSeed` | src/core/args.c:44-57 | a token with a colon is its cut host and its port |
| `NodeConfig.FillSeeds` | src/core/args.c:39-61 | the capacity guard drops no token and no write passes the array |
| `NodeConfig.ParseSeeds` | src/core/args.c:21-63 | the seeds are the splits of the colon-bearing tokens in order |
| `NodeConfig.ConfigCell.Handle` | src/core/args.c:12-68 | what a call sets, and that exactly the known names are accepted |
| `NodeConfig.LastCallWins` | src/core/args.c:19-37 | over a whole parse the last PORT and the last SEEDS call alone count |
| `NodeConfig.IndentedLineReplaces` | src/core/args.c:21-37 | an indented line under a SEEDS entry is a SEEDS call whose seeds replace the others |
| `NodeConfig.SeedsKept` | src/core/args.c:21-37 | the node has the seeds of all SEEDS calls iff none before the last has a token with a colon |
| `NodeConfig.SeedsLost` | src/core/args.c:21-37 | of two printed lists, one on an indented line, the node gets that one |
| `NodeConfig.SeedLost` | src/core/args.c:21-37 | a file with the seeds a:1 and b:2 that configures b:2 alone |
| `NodeConfig.PrintedConfig` | src/core/args.c:12-68 | a printed document configures the node as its entries say, without error iff all are known |
| `ConfigLaws.OneEntry` | src/core/args.c:19-66 | a file of one entry is accepted iff it is SERVER's PORT or SEEDS, and sets that field alone |
| `NodeConfig.AtoiOfDecimal` | src/core/args.c:20 | `atoi` reads back exactly the printed numbers that an `int` holds, negative ones too |
| `ConfigLaws.NumberOf` | src/core/args.c:20 | whitespace and a sign in front of a number count, what is behind it does not |
| `ConfigLaws.NoNumber` | src/core/args.c:20 | without a digit it is 0 |
| `ConfigLaws.AtoiRange` | src/core/args.c:20 | the low 32 bits of what 64 hold; -1 above that and 0 below |
| `ConfigLaws.DelimiterIs` | src/core/args.c:40 | the delimiters are tab, newline, carriage return and blank |
| `ConfigLaws.TokensOfSpread` | src/core/args.c:40-60 | tokens with any delimiters around and between them are found, and nothing else |
| `ConfigLaws.NotASeparator` | src/core/args.c:25-40 | a vertical tab or form feed counts as whitespace but separates nothing |
| `ConfigLaws.SeedOfToken` | src/core/args.c:44-57 | a token is cut at its first colon, its host to 63 characters |
| `ConfigLaws.NoSeedOfToken` | src/core/args.c:44-45 | a token without a colon is no seed |
| `ConfigLaws.SeedsOfSpread` | src/core/args.c:21-63 | seeds separated by any delimiters are read back in order |
| `NodeConfig.SeedsOfPrinted` | src/core/args.c:21-63 | a printed list of seeds is read back in order |
| `NodeConfig.ConfigRoundTrip` | src/core/args.c:87-92 | a printed configuration file parses without error to the configuration it was printed from |
| `NodeConfig.Load` | src/core/args.c:87-92 | the configuration and the result of parsing any file's text, each handler call made in its pass |
| `Queue.XQueue.constructor` | src/helpers/xqueue.c:5-14 | an empty queue behind a dummy |
| `Queue.XQueue.Enqueue` | src/helpers/xqueue.c:17-23 | appends; `tail` stays the last node |
| `Queue.XQueue.IsEmpty` | src/helpers/xqueue.c:30 | the wait loop's test is emptiness, and emptiness is `tail == head` |
| `Queue.XQueue.Dequeue` | src/helpers/xqueue.c:33-39 | takes the first item; `tail` goes back to the dummy with the last |
| `ServerQueue.PerformStep` | src/helpers/xqueue.c:16-41 | each step of the server does to the linked list what it does to the queue; the list decides who waits and what is taken |
| `ServerQueue.ReplayQueue` | src/helpers/xqueue.c:16-41 | in every state of every run the list behind the dummy is the queue, `tail` its last node |
| `Server.WakeupsKept` | src/helpers/xqueue.c:16-41 | every step keeps the wakeup count |
| `Server.FateKept` | src/transfer/udp.c:40-58 | every step keeps each dequeued request with one worker or answered once |
| `Server.HoldersAreReady` | src/node/node.c:15-44 | a worker with a request finds handler, dispatch table and node in place |
| `Server.StepKeeps` | src/transfer/udp.c:37-93 | every step of every thread keeps the whole invariant |
| `ServerTheorems.RunKeeps` | src/transfer/udp.c:37-93 | it holds in every state of every run |
| `ServerTheorems.NoLostWakeups` | src/helpers/xqueue.c:16-41 | a queued request never coexists with all workers waiting, unless its signal is due; no request is dropped |
| `ServerTheorems.NothingIsLost` | src/transfer/udp.c:77-92 | first in, first out; received = pending + queued + in hand + answered |
| `ServerTheorems.AnsweredOnce` | src/transfer/udp.c:44-57 | a request is answered at most once, to its own sender, with the handler's reply |
| `ServerTheorems.QuiescentIsDone` | src/transfer/udp.c:40-58 | when no thread can move on its own and no text has overrun its buffer, every request received has been answered |
| `ServerTheorems.OverrunExactly` | src/node/request_handler.c:30-34 | at rest a text has overrun its buffer iff some datagram's text does not fit |
| `ServerTheorems.QuiescentReplies` | src/node/request_handler.c:17-39 | and if all fit, each sender has, byte for byte, the reply the protocol prescribes |
| `ServerTheorems.StepMeasure` | src/transfer/udp.c:37-93 | every step but an arrival and a spurious wakeup decreases a measure |
| `ServerTheorems.RunsAreShort` | src/transfer/udp.c:37-93 | so a run is bounded by its arrivals and spurious wakeups, and the server comes to rest |
| `ServerTheorems.Settle` | src/transfer/udp.c:37-93 | every run goes on to rest without receiving more |
| `ServerTheorems.AnyTraffic` | src/transfer/udp.c:37-93 | whatever fitting datagrams arrive, there is a run that receives them all and comes to rest |
| `Buckets.BucketIndex` | src/database/store.c:8-14 | the loop computes the wrapped Horner index, within range |
| `Buckets.SignedCharIs` | src/database/store.c:11 | a digit is the byte modulo 256, from -128 to 127 |
| `Buckets.SignedNumberSplit` | src/database/store.c:10-12 | later digits weigh less, each 256 times |
| `Buckets.SignedNumberOfOne` | src/database/store.c:10-12 | the number of one byte is its digit |
| `Buckets.BucketWhenDividing` | src/database/store.c:8-14 | for a count that divides 2^64 it is the signed-digit number modulo the count |
| `Buckets.BucketIsRemainder` | src/database/store.c:8-14 | and for all digests only for such a count |
| `Buckets.WrappedDigest` | src/database/store.c:8-14 | a digest that shows it for every other count |
| `Buckets.NodeBucket` | src/node/node.c:13 | with 1024 buckets only the last two bytes matter, and how |
| `Store.Entry.constructor` | src/database/store.c:27-35 | an entry with its key, data and successor |
| `Store.KvStore.constructor` | src/database/store.c:16-25 | an empty map, for any number of buckets |
| `Store.KvStore.Link` | src/database/store.c:43-57 | a new last entry of its bucket puts exactly one key into the map |
| `Store.KvStore.FindOrLast` | src/database/store.c:46-59 | the walk of a put stops at the key, or at the last entry if no entry has it |
| `Store.KvStore.PutDigest` | src/database/store.c:42-61 | the chains go on holding the map, in which the first put of a digest wins |
| `Store.KvStore.Search` | src/database/store.c:70-88 | the walk of a get finds the first entry with the key |
| `Store.KvStore.GetDigest` | src/database/store.c:69-89 | exactly the map's value or nothing |
| `Store.DigestOfKey` | src/database/store.c:38-39 | a key below 2^32 bytes is hashed whole |
| `Store.DigestOfLongKey` | src/database/store.c:38-39 | a longer one by as many of its first bytes as its length leaves modulo 2^32 |
| `Store.LongKeysCollide` | src/database/store.c:38-39 | so any 2^32 bytes behind a key make another key with its digest |
| `Store.HashKey` | src/database/store.c:38-39 | the FIPS digest of a key below 2^32 bytes, and of the counted prefix of a longer one |
| `Store.KvStore.Put` | src/database/store.c:37-62 | under the key's FIPS digest the first data stays, and no other digest changes |
| `Store.KvStore.Get` | src/database/store.c:64-89 | the data under the key's FIPS digest and its length, or nothing and 0 |
| `StoreThreads.StepKeeps` | src/database/store.c:42-89 | every step of every thread keeps the invariant that ties chains to the order of acquisitions |
| `StoreThreads.RunsAreSequential` | src/database/store.c:42-89 | in every interleaving gets return what the order of lock acquisitions prescribes, with the length they copied |
| `StoreThreads.RunsOnlyGrow` | src/database/store.c:52-57 | the order, the results and every chain only grow |
| `StoreThreads.RealTimeOrder` | src/database/store.c:42-89 | an operation that takes its lock after another has returned comes later in the order; no two results share a place |
| `StoreThreads.FirstPutWins` | src/database/store.c:48-51 | a digest's value is the data of its first put |
| `StoreThreads.NeverStuck` | src/database/store.c:42-89 | a thread can move, or waits for a lock whose holder can |
| `StoreThreads.AnyOrder` | src/database/store.c:42-89 | any operations can be called one after the other: each takes its place in the order and returns |
| `PeerList.HostBufferReadsAs` | src/node/lookup_table.c:25-26 | a stored host reads as the first 45 bytes of the given one |
| `PeerList.MadeIsCanonical` | src/node/lookup_table.c:21-32 | a stored host buffer is zero-padded, as storing it again would leave it |
| `PeerList.ByHashLaw` | src/node/lookup_table.c:136-204 | by hash, a find gives and a remove takes out exactly the first record with it, or nothing |
| `PeerList.ByAddressLaw` | src/node/lookup_table.c:106-184 | likewise by host string and port |
| `PeerList.AddLaw` | src/node/lookup_table.c:76-104 | an add puts a record with the given fields in front, iff none has the address |
| `PeerList.FindAfterAdd` | src/node/lookup_table.c:76-104 | what was added is found by its hash, and by its address iff the host fits |
| `PeerList.AddKeepsUnique` | src/node/lookup_table.c:81-100 | an add keeps addresses unique iff the host fits or its first 45 bytes are new |
| `PeerList.LongHostTwice` | src/node/lookup_table.c:81-100 | a 46-byte host added twice makes two records of one address |
| `PeerList.PerformIsList` | src/node/lookup_table.c:76-164 | the operations of a history are those of the table |
| `PeerList.AnyOperations` | src/node/lookup_table.c:76-164 | after any operations the size is successful adds minus removes, newest first, canonical |
| `PeerList.AnyOperationsUnique` | src/node/lookup_table.c:76-164 | with hosts of at most 45 bytes addresses are unique |
| `PeerList.FirstIsNewest` | src/node/lookup_table.c:136-204 | of the live records with a hash or an address the first is the most recently added |
| `LookupTables.CopyHost` | src/node/lookup_table.c:25-26 | 45 bytes copied or zero-filled and the terminator: the buffer reads as the cut host |
| `LookupTables.TableNode.constructor` | src/node/lookup_table.c:21-32 | a node with the record made of its arguments, which is canonical |
| `LookupTables.LookupTable.constructor` | src/node/lookup_table.c:44-57 | an empty table |
| `LookupTables.LookupTable.Add` | src/node/lookup_table.c:76-104 | adds in front unless the address is there, whose record then stays; the cached size follows |
| `LookupTables.LookupTable.Remove` | src/node/lookup_table.c:106-164 | removes exactly the first match, by address or by hash, and keeps the order of the rest |
| `LookupTables.LookupTable.Find` | src/node/lookup_table.c:166-204 | the first match, by address or by hash |
| `LookupTables.LookupTable.SerializedSize` | src/node/lookup_table.c:206-215 | the wrapped size, unless the caller blocks itself |
| `LookupTables.LookupTable.Fill` | src/node/lookup_table.c:223-250 | fills exactly the computed size or refuses and changes nothing |
| `LookupTables.LookupTable.Serialize` | src/node/lookup_table.c:217-252 | blocks iff the mutex is not recursive; otherwise fills exactly the computed size or refuses |
| `LookupTables.ReadRecord` | src/node/lookup_table.c:278-294 | a record as `create_node` remakes it |
| `LookupTables.Deserialize` | src/node/lookup_table.c:254-308 | reads outside iff a wrapped size passes the test; too short iff nothing decodes; otherwise the decoded list, last record first |
| `PeerCodec.InfoRoundTrip` | src/node/lookup_table.c:235-245 | a canonical record survives its 70 bytes |
| `PeerCodec.RecordBytes` | src/node/lookup_table.c:235-245 | a record's fields by their place: host buffer, port low byte first, hash |
| `PeerCodec.RecordFields` | src/node/lookup_table.c:278-294 | the same of a record that is read |
| `PeerCodec.TableBytes` | src/node/lookup_table.c:229-247 | the count is in front, low byte first, and record i at 8 + 70 i |
| `PeerCodec.TableFields` | src/node/lookup_table.c:260-300 | record i is read from 8 + 70 i into place n - 1 - i |
| `PeerCodec.RoundTripReverses` | src/node/lookup_table.c:217-308 | reading back gives the records in reverse order, whatever follows them |
| `PeerCodec.TwoRoundTrips` | src/node/lookup_table.c:217-308 | two round trips restore the list |
| `PeerCodec.LengthTestIsExact` | src/node/lookup_table.c:266-272 | the length test keeps reads inside the data iff the size has not wrapped or is still too large |
| `PeerCodec.WrappedCount` | src/node/lookup_table.c:266-267 | sixty-two bytes that pass the test, though their count asks for 2^64 + 62 |
| `Packets.DecodeEncode` | src/packet/packet.c:12-87 | decoding an encoded packet and anything behind it gives the packet |
| `Packets.EncodeDecode` | src/packet/packet.c:12-87 | re-encoding an accepted datagram gives its first 26 and payload bytes |
| `Packets.DecodeIsPrefix` | src/packet/packet.c:12-56 | a datagram decodes to a packet iff that packet's encoding is a prefix of it |
| `Packets.EncodedFields` | src/packet/packet.c:58-87 | the fields of a packet by their place in its bytes |
| `Packets.DecodedFields` | src/packet/packet.c:12-56 | and of a datagram, with both length tests |
| `Packets.FromBytes` | src/packet/packet.c:12-56 | accepts exactly the datagrams with a packet as a prefix, and returns it |
| `Packets.ToBytes` | src/packet/packet.c:58-87 | writes the encoding and returns its length |
| `PacketText.HexDigits` | src/helpers/convert.c:10-26 | a byte is its two digits, the high one first |
| `PacketText.HexTextAt` | src/helpers/convert.c:24-32 | byte i of a payload is printed at 5 i, with a blank between any two |
| `PacketText.HashTextAt` | src/helpers/convert.c:9-11 | byte i of a hash at 2 i |
| `PacketText.TextOfPing` | src/packet/packet.c:107-116 | one packet's text, field by field |
| `PacketText.HashString` | src/helpers/convert.c:6-12 | the forty hexadecimal digits of a hash, inside 41 bytes |
| `PacketText.HexString` | src/helpers/convert.c:14-36 | the text of a payload, with no write outside 5 n + 1 bytes |
| `PacketText.TextFits` | src/packet/packet.c:97-116 | the text of a packet fits 512 bytes iff its digits and its payload's text come to at most 424 characters |
| `PacketText.FitsByLength` | src/packet/packet.c:97-116 | which is so iff the payload has at most 82 bytes, or 83 with at most 8 digits in version, type and id, or 84 with 3 |
| `PacketText.LongPing` | src/packet/packet.c:97-116 | a ping with 85 bytes of payload needs 517 |
| `PacketText.ToString` | src/packet/packet.c:97-120 | prints the text, or overruns, by that condition |
| `RequestHandler.LoadCommands` | src/node/load_commands.c:14-19 | every slot answers with an error save the ping slot |
| `RequestHandler.EmptyReply` | src/node/load_commands.c:5-12 | the error packet's bytes, 1 4 0 0, the hash and two zeros, and their number |
| `RequestHandler.PingReply` | src/node/commands/ping.command.c:6-13 | the PONG packet's bytes, 1 5, the request's id, the hash, 0 4 and "PONG", and their number |
| `RequestHandler.Handle` | src/node/request_handler.c:17-39 | the reply to every datagram whose text fits, with length 0 for a malformed one; an overrun for every other |
| `RequestHandler.ReplyLaw` | src/node/request_handler.c:17-39 | a packet is answered iff its text fits: a ping with the bytes of PONG and its id, any other with those of an error with id 0 |
| `RequestHandler.EmptyReplyLaw` | src/node/request_handler.c:21-27 | the reply is empty exactly for datagrams no packet starts |
| `RequestHandler.LongPingIsLost` | src/node/request_handler.c:30-34 | a ping with 85 bytes of payload has no reply |

## Left out

- Sockets, `select`, timeouts, binding, and the UDP client: calls into the system; arrivals and replies are steps.
- Teardown of every component, and allocation failure: memory management.
- `lookup_table_print`, the logger and the time helper: output with easy properties.
- `load_or_generate_node_id` and the node's hash: file access and OpenSSL randomness; the hash is a parameter.
- Signal handling and the handshake loop of `main`: driven by input and output.
- INI build variants that are off by default, and the SHA-1 code behind `#if 0` and without `SHA1HANDSOFF`.
- `delete`, which the node's own README.md lists at its line 87 and the code does not have.
- Null pointer arguments of the peer table functions, which return -1 or null at once.
- Data races and weaker memory models than sequential consistency.
- Any cryptographic property of SHA-1.
- Sha1.Context.Update: asks that the bytes buffered and new number less than 2^32; beyond that the code writes outside its buffer (`Sha1.UpdateLimitIsExact`).
- Store.KvStore.Put: asks for at least one bucket, because with none the code divides by zero; likewise Get.
- LookupTables.LookupTable.Serialize: asks that the serialized size is below 2^64, which a table in memory cannot exceed.
- LookupTables.LookupTable.Remove: one method for removal by address and by hash, which differ only in the test; likewise Find.
- NodeConfig.TakeSeed: C leaves the result of `atoi` open beyond `int`; the model has the one of the usual library.
- NodeConfig.Load: the string reader stands for `fgets`, which takes the same pieces.
- Ini.Parser.ParseNext: line numbers are unbounded; the code's `int` would overflow after 2^31 lines.
- Store.Entry.constructor: keys and data of entries are constants, since no code changes them once linked.
- Server.StepKeeps: what the program does after an overrun of the text buffer, which C leaves open.

# NetPlay packet store and query compiler: a verified model

The project models NetPlay's lock-free packet store and the queries that run on it, and proves what they
guarantee over every interleaving, every text and every stored packet.

- **Publishing** (`PublishProtocol`, `PublishInvariant`, `PublishLimits`, `PublishTheorems`, `PublishProgress`,
  `PublishOverrun`). Each call of `insert_pktburst` is a job that performs one shared-memory access per step; any
  number of jobs interleave arbitrarily with sequentially consistent steps. The inductive invariant records who owns every reserved id, byte
  range and list slot. From it follow publication safety, exact and stable snapshots, read-back for ever, each entry
  exactly once, deadlock freedom, the exact condition (a non-empty burst) under which a writer cannot get stuck, and
  the exact limits within which no access leaves its memory.
- **Storage** (`MonoLog`, `LinearLog`, `TieredIndex`, `InstallOnce`). The doubling-bucket log, the block log with
  its spill buffer and the tiered index as heap objects or stateful classes that refine maps; lazy installation of
  cells by compare-and-swap, through any number of tiers, as a second step machine.
- **Iterators** (`Cursors`, `FilterIterators`, `LiveStore`, `LiveReader`, `Characters`). The three iterators as classes,
  proved against the concatenation of the lists they walk; walks of states with bursts in flight; and a reader as one
  more process of the publish machine.
- **Queries** (`QueryLexer`, `Spelling`, `QueryParser`, `Grammar`, `TextParser`, `Addresses`, `Ranges`, `Resolution`,
  `Clauses`, `Planner`, `PlanChoice`, `Cast`, `CastQuery`, `UncheckedHit`, `Standing`, `StandingExact`). From the
  characters of a query to the ids it returns, over any store the publish machine can reach, whatever the packets.
- **Packets** (`Packets`, `Frames`). Header fields at their byte offsets, and where a frame is entered, byte by byte.
- **Rate limiting** (`TokenBucket`).

`dafny verify dfyconfig.toml` checks everything.

## Where the code differs from what its users might expect

Each point is a proved statement about the code as written.

- An empty burst (`netplayd/include/netplay_writer.h:37-38` passes the receive count unguarded) can wait for ever:
  `PublishProgress.NonEmptyExactly`, `PublishProgress.EmptyBurstStuck`.
- The first index hit is yielded without the `max_rid` test and, under a packet filter, without the filter: `Collect`,
  `CollectFiltered`, `Cast.ClauseIdsAre`; `UncheckedHit.RejectedPacketReturned` is a store and a query for which that shows.
- `advance` asks the index for the key after the range, so a range that ends at the last key leaves the index:
  `Collect` (last probe), `Ranges.PortWalkableExactly` (a `>` or `>=` on a port alone always does). What counts is the
  reduced range that the planner picks: `Cast.ExecuteCast` says exactly when a cast is answered.
- A character window that ends at the last second leaves the index, and its counting loop never ends:
  `Characters.CollectCharacter` (last probe), `Characters.CounterEndsExactly`.
- A list is visible before it has an entry, and `size()` counts slots before they are set and before their bucket
  exists. A reader beside writers can therefore walk for ever, follow a null pointer or read an unset slot:
  `LiveStore.NewListTraps`, `LiveStore.MissingBucket`, and exactly when: `LiveStore.LiveWalk`.
- A present but empty list after the first token makes an iteration endless: `Cursors.WalkEndsExactly`. The
  `packet_counter` query creates such lists: `Characters.CountThenIterate`.
- `!=` compiles to the range of `==`, `< 0` on a port or a time to everything, `>` of the last second to everything:
  `Ranges.PortMeansExactly`, `Ranges.TimeMeansExactly`. The parser negates operators correctly
  (`QueryParser.NegateOpExactly`), but the ranges of an operator and its negation are complements only for orderings away
  from the ends: `Resolution.FlipsExactly`, and for whole queries `Resolution.SoundExactly`.
- The upper end of a network is computed with the mask of 32 minus the prefix: `10.1.2.0/24` is looked up as 10.1.2.0 to
  10.255.255.255 and `10.0.0.0/8` as 10.0.0.0 to 10.0.0.255. `Addresses.NetworkExactly` says when the range is right.
- Addresses and ports are indexed as the machine reads the header (`netplayd/include/packetstore.h:102-125`), without
  conversion from network order; the model reads low byte first: `Frames.WireOrderExactly`.
- A packet that is neither TCP nor UDP is in no port index and passes every filter on ports, so whether a clause with a
  port and another attribute returns it depends on the counts: `PlanChoice.ChoiceMattersExactly`.
- `plan` accepts a NOT expression and returns an empty plan, and rejects an OR with a bare predicate as a child:
  `Planner.Plan`. The parser never produces a NOT.
- Peeking is not transparent at a lone trailing `i`, `<`, `>`, `!` or `!i`, or at a byte that reads as EOF:
  `QueryLexer.PeekTransparentExactly`. A text with such a token left over at its end is accepted without it:
  `TextParser.ParseText`.
- A record of more than 1025 bytes, its 8-byte timestamp included, can be copied past the spill buffer of its block:
  `PublishOverrun.LengthSafeExactly`.
- A registered character keeps only the last predicate per attribute of a clause and ignores time:
  `Standing.BuildFilterList`, and exactly when that matters: `StandingExact.FaithfulExactly`.
- MonoLog addressing leaves its bucket at index 2^31 - 16, where `1 << 31` is sign-extended: `MonoLog.InBoundsExactly`.

## Model

| member | source | states |
|---|---|---|
| PublishInvariant.StepInv | netplayd/include/packetstore.h:77-143 | every step of every writer (start; each shared access, a push being install, reserve, and per slot bucket and store; publish; failed CAS) keeps the invariant on jobs, installed lists, slot ownership, offset words, bytes and allocated blocks |
| PublishInvariant.RunInv | netplayd/include/packetstore.h:77-143 | so it holds in every state reachable by any interleaving |
| PublishInvariant.AddressInjective | logstore/include/monolog.h:345-349 | the pointer arithmetic of `ptr` maps two bytes to one address only if their logical offsets are equal, spill area included |
| PublishInvariant.RecordsApart | logstore/include/logstore.h:461-465 | bytes of different reserved records never share an address, even across a block boundary |
| PublishTheorems.RunGrows | logstore/include/offsetlog.h:36-51 | read id, write id and data tail only grow, and no id, record or finished job is ever reassigned, over every run |
| PublishTheorems.ReadIdMovesByBlocks | logstore/include/offsetlog.h:36-51 | the read id never passes the write id, changes only by publishing one whole block that starts at it, and non-empty blocks finish in allocation order |
| PublishTheorems.EntrySound | netplayd/include/packetstore.h:89-139 | any value in any list slot is a reserved id whose record has that list's token, put there by the one push entitled to it |
| PublishTheorems.EntryComplete | netplayd/include/packetstore.h:89-142 | every index entry a published packet should have is in place |
| PublishTheorems.EachEntryOnce | netplayd/include/packetstore.h:89-142 | in every reachable state a published id occurs exactly once over all keys of an index if its record belongs there, under its token, and never otherwise; the `Frames` rows say in bytes which records those are |
| Frames.PortEntries | netplayd/include/packetstore.h:109-126 | a published frame with byte 23 equal to 6 or 17 occurs exactly once in each port index, under the words at bytes 34 and 36; any other frame never does |
| Frames.HeaderEntries | netplayd/include/packetstore.h:89-107 | any published frame occurs exactly once in each address index, under the words at bytes 26 and 30, and once under the second of its burst |
| Frames.CharacterEntries | netplayd/include/packetstore.h:130-139 | it occurs exactly once under a character, in its second, if some filter of the character holds its addresses and, for byte 23 equal to 6 or 17 only, its ports, and never otherwise |
| Frames.PacketFields | netplayd/include/packet_filter.h:60-78 | frames with protocol 6 and 17, and no others, have ports; every protocol, pair of addresses and pair of ports is the header of some frame |
| Frames.WireOrderExactly | netplayd/include/packetstore.h:102-125 | the token of an address or port is the number that was sent, high byte first, if and only if its bytes mirror |
| PublishTheorems.PublicationSafety | netplayd/include/packetstore.h:77-143 | in every interleaving in which no access has left its memory, every id below the read id has its offset word, its timestamp and bytes, and all its index entries in place, each in a block, slot and cell that exists |
| PublishTheorems.SnapshotExactAndStable | logstore/include/logstore.h:620-666 | with the bound taken from `num_ids()`, the ids an index lists for a token range are exactly those a scan of the packets gives, and no later step of any writer changes them |
| PublishTheorems.Conservation | netplayd/include/packetstore.h:89-142 | with nothing in flight the address and time indexes hold exactly `num_pkts()` entries, any index as many as a scan counts, and every reserved slot is filled |
| PublishTheorems.UnpackPack | logstore/include/offsetlog.h:53-67 | `lookup` gives back the length always and the offset exactly when it is below 2^48 |
| PublishTheorems.ReadBackForever | netplayd/include/packetstore.h:315-324 | a published id reads back as its timestamp and packet, now and after every further run in which no access leaves its memory; that the offset fits 48 bits follows from the 1024 blocks |
| PublishLimits.StepTame | logstore/include/monolog.h:251-349 | a step keeps a state tame (every access so far inside a block, spill buffer, block table, entry list and key space) exactly when the access it makes fits |
| PublishLimits.TameBefore | logstore/include/monolog.h:251-349 | tameness, once lost, never comes back |
| PublishLimits.LimitsSuffice | netplayd/include/packetstore.h:77-143 | below 2^40 bytes, 2^34 ids, 2^32 seconds and 2^28 - 16 entries per list, and with records that fit where they fall, every reachable state is tame, whatever is in flight |
| PublishLimits.CapacityIsTable | logstore/include/monolog.h:251-263 | the capacities of the data and offset logs are those of 1024 blocks of 2^30 bytes and 2^24 ids |
| PublishLimits.TameExactly | netplayd/include/packetstore.h:77-143 | with nothing in flight, no access of the run left its memory if and only if those limits were kept |
| PublishOverrun.LengthSafeExactly | logstore/include/monolog.h:251-349 | no run of packets of at most n bytes copies past a spill buffer if and only if 8 + n <= 1025 |
| PublishOverrun.OverrunningRun | netplayd/include/packetstore.h:315-324 | for every longer n, a reachable run that does, and so is not tame |
| PublishTheorems.WritesAreAllocated | logstore/include/logstore.h:461-465 | no offset-word or record write goes through a missing block, and a record write stays inside block and spill buffer exactly when offset mod block + length fits |
| PublishTheorems.StraddleExact | logstore/include/monolog.h:251-262 | a record length is safe at every offset exactly up to 1025 bytes |
| PublishProgress.MeasureFalls | netplayd/include/packetstore.h:77-143 | each non-spinning step of a job uses up exactly one unit of the remaining work |
| PublishProgress.NoDeadlock | logstore/include/offsetlog.h:27-51 | while ids are unpublished, exactly one unpublished non-empty block starts at the read id and its writer can take a non-spinning step |
| PublishProgress.EveryScheduleDrains | logstore/include/offsetlog.h:27-51 | every schedule of non-spinning steps is no longer than the remaining work, can be completed, and with non-empty bursts ends with read id equal to write id and all jobs done |
| PublishProgress.FinishExactly | logstore/include/offsetlog.h:36-44 | a job can still be brought to its end exactly when it is done or the read id has not passed its start |
| PublishProgress.NonEmptyExactly | logstore/include/offsetlog.h:36-44 | bursts of n packets can always finish, in every reachable state, if and only if n > 0 |
| PublishProgress.EmptyBurstStuck | netplayd/include/netplay_writer.h:37-38 | a concrete run after which an empty burst can never finish |
| Packets.DecodeEncode | netplayd/include/packetstore.h:320-322 | the stored 8-byte timestamp decodes to the time written |
| Bits.HighestBit | logstore/include/utils.h:12-24 | the shifting loop returns the position of the highest set bit |
| Bits.XorTopBit | logstore/include/monolog.h:107 | clearing the top bit by xor is subtracting it |
| MonoLog.IndexOfSlot | logstore/include/monolog.h:104-113 | for idx + 16 < 2^31 the bucket and offset are in bounds and 2^(b+4)+o-16 gives idx back |
| MonoLog.SlotOfIndex | logstore/include/monolog.h:104-113 | every slot of the first 27 buckets is the slot of the index computed so: the addressing is a bijection |
| MonoLog.SlotsApart | logstore/include/monolog.h:104-113 | two indexes never share a slot |
| MonoLog.InBoundsExactly | logstore/include/monolog.h:104-113 | below 2^63, an index lies inside a bucket of 32 exactly when idx + 16 < 2^31 (32-bit highest_bit, int shift) |
| MonoLog.EntryListCapacity | logstore/include/entrylist.h:8 | the 24 buckets of an entry list suffice exactly below 2^28 - 16 |
| MonoLog.BucketIsSlot | logstore/include/monolog.h:104-113 | counting buckets up from the first gives the bucket of the highest-bit addressing |
| MonoLog.Log.constructor | logstore/include/monolog.h:75-81 | an empty log with its first bucket allocated |
| MonoLog.Log.Set | logstore/include/monolog.h:104-113 | the map of written values changes at idx only, allocating the bucket if needed |
| MonoLog.Log.Get | logstore/include/monolog.h:173-179 | returns the value last set |
| MonoLog.Log.EnsureAlloc | logstore/include/monolog.h:89-101 | afterwards every index of the interval has its bucket and nothing written has changed |
| MonoLog.Log.TryAllocate | logstore/include/monolog.h:231-246 | installs a new bucket of 2^(b+4) elements, keeping all others and all written values |
| MonoLog.Relaxed.PushBack | logstore/include/monolog.h:589-593 | the contents are the old contents and the value at the end |
| MonoLog.Relaxed.PushBackRange | logstore/include/monolog.h:595-601 | the contents are the old contents and first, ..., last at the end, nothing for an empty burst |
| MonoLog.Relaxed.At | logstore/include/monolog.h:603-605 | reads the element of the contents |
| LinearLog.PutKeeps | logstore/include/monolog.h:301-309 | copying a record leaves every logically disjoint record readable as it was, straddling or not |
| LinearLog.EveryCopyReadsBack | logstore/include/monolog.h:301-334 | after any sequence of copies to pairwise disjoint ranges each one reads back |
| LinearLog.ByteAddressExactly | logstore/include/monolog.h:321-349 | a byte of a record is where a single-element `get` looks exactly when it has not spilled over the block end |
| LinearLog.Log.constructor | logstore/include/monolog.h:257-263 | an empty log with its first block allocated |
| LinearLog.Log.Write | logstore/include/monolog.h:301-309 | the cells become the old cells with the data put at the offset, the block allocated if needed |
| LinearLog.Log.WriteUnsafe | logstore/include/monolog.h:313-318 | the same without allocation |
| LinearLog.Log.Read | logstore/include/monolog.h:328-334 | returns any record the cells hold at that offset |
| TieredIndex.KeyOfPath | logstore/include/tieredindex.h:259-262 | at every depth each div/mod step of a key below the product of the sizes is in bounds, and the path determines the key |
| TieredIndex.PathOfKey | logstore/include/tieredindex.h:440-443 | every in-bounds path is the path of exactly one key |
| TieredIndex.AtFollowsPath | logstore/include/tieredindex.h:282-287 | `at` ends in the cell that the key's path names, tier by tier, and is null where a tier is missing |
| TieredIndex.AtInstalled | logstore/include/tieredindex.h:54-70 | `get` fills the key's own cell if it was empty and changes what `at` returns for no other key |
| TieredIndex.EmptyHasNothing | logstore/include/tieredindex.h:30-34 | a new index returns null for every key |
| TieredIndex.Index.Get | logstore/include/tieredindex.h:349-352 | the map gains an empty list for a new key and nothing else; references handed out earlier stay good |
| TieredIndex.Index.PushBack | logstore/include/tieredindex.h:296-299 | pushing through a reference appends to the list of the key it was obtained for and to no other |
| TieredIndex.Index.AddEntry | logstore/include/tieredindex.h:207-210 | appends to that key's list only |
| TieredIndex.Index.Lookup | logstore/include/tieredindex.h:282-287 | null exactly for keys never passed to `get`, otherwise the key's list |
| InstallOnce.StepInv | logstore/include/tieredindex.h:54-70 | every load, allocation, CAS, discard, reload and push, on any tier of an index of any depth, keeps the invariant |
| InstallOnce.CellsNeverChange | logstore/include/monolog.h:231-246 | once set, a cell of any tier keeps its pointer through every run |
| InstallOnce.SameItem | logstore/include/tieredindex.h:349-352 | in every reachable state callers that followed the same cells stand on the same array or list, callers of different keys on different ones, and none on a freed one |
| InstallOnce.NothingLost | logstore/include/tieredindex.h:440-443 | the pushes made are exactly those of the finished callers, the list the cells lead to for a key holds that key's pushes in order, and nobody follows a null or freed pointer |
| InstallOnce.WaitFree | logstore/include/tieredindex.h:54-70 | whatever the others do, a caller takes at most five steps per tier and one push |
| Cursors.WalkEndsExactly | logstore/include/filterresult.h:87-96 | the walk from `begin()` reaches `end()` exactly when no list after the first token of the range is empty |
| FilterIterators.FilterIterator.constructor | logstore/include/filterresult.h:28-38 | what remains to be seen is the concatenation of the lists of the range |
| FilterIterators.FilterIterator.Advance | logstore/include/filterresult.h:87-96 | moves the cursor to the next entry, the next present list or the key after the range, whatever the lists look like, asking only for keys inside the index |
| FilterIterators.FilterIterator.Next | logstore/include/filterresult.h:60-66 | drops the current entry and the following ones not below the bound |
| FilterIterators.Collect | logstore/include/filterresult.h:119-125 | a loop from begin to end terminates and yields the lists in token then position order, the first entry unconditionally and later ones below the bound; the last probe is the key after the range |
| FilterIterators.FilterCount | logstore/include/logstore.h:599-608 | for a range inside the index, the number of entries in its lists |
| FilterIterators.IterationLengthIsCount | logstore/include/logstore.h:599-608 | with the bound above every id the iteration is as long as `filter_count` says (and, for a character's lists, as `packet_counter` says) |
| FilterIterators.PacketFilterIterator.Next | netplayd/include/packet_filter.h:154-169 | drops the current hit and the following ones that are too new or whose stored packet the filter rejects |
| FilterIterators.CollectFiltered | netplayd/include/packet_filter.h:192-207 | the first hit unconditionally, then the hits below the bound that the filter accepts |
| Characters.CharacterIterator.constructor | netplayd/include/complex_character_index.h:29-40 | for a window that ends before the last second, what remains is the concatenation of the character's lists over the seconds |
| Characters.CharacterIterator.Next | netplayd/include/complex_character_index.h:62-68 | drops the current entry and following ones not below the bound |
| Characters.CollectCharacter | netplayd/include/complex_character_index.h:112-125 | the iteration terminates with the window's entries, `size()` is their number, and the last second asked for is the one after the window |
| Characters.CharacterIndex.PacketCounter | netplayd/include/packetstore.h:345-353 | for a window that ends before the last second, returns its number of entries and leaves an empty list for every second that had none, other characters untouched |
| Characters.CounterEndsExactly | netplayd/include/packetstore.h:350 | the 32-bit counting loop leaves its window if and only if the window does not end at the last second |
| Characters.CountThenIterate | netplayd/include/packetstore.h:345-353 | after counting a window, iterating it ends exactly when every second after the first had an entry |
| QueryLexer.Lexer.NextToken | netplayd/include/query_parser.h:81-154 | the loop over the stringstream returns the token and leaves the stream state that the functional lexer gives, or throws with it; `Spelling.LexExactly` says in characters which token that is |
| QueryLexer.Lexer.PeekToken | netplayd/include/query_parser.h:156-166 | reads a token and puts back as many characters as its text has |
| QueryLexer.TokenTextIsConsumed | netplayd/include/query_parser.h:81-154 | away from the listed spots the non-blank characters consumed are, character by character, the text of the token, `in` and `!in` back-off included |
| QueryLexer.PeekTransparentExactly | netplayd/include/query_parser.h:156-166 | peek then read gives the token and stream of read alone if and only if the position is not one of the listed spots |
| QueryLexer.CleanNeverFades | netplayd/include/query_parser.h:81-166 | a text whose last character is not `i`, `<`, `>` or `!` and that has no EOF byte never meets such a spot |
| QueryLexer.OperatorsAreValid | netplayd/include/query_parser.h:101-143 | only the eight negatable operators are ever produced |
| Spelling.LexExactly | netplayd/include/query_parser.h:81-154 | away from those spots a token is read if and only if its characters (two bars, two ampersands, `!`, parentheses, the eight operators, an operand) stand at the next non-blank place and what follows does not join them |
| Spelling.OperandAlphabet | netplayd/include/query_parser.h:169-171 | operands consist of letters, digits, `-`, `.`, `/` and `_`, by character code |
| Spelling.BlankAlphabet | netplayd/include/query_parser.h:83-85 | blanks are tab, line feed, vertical tab, form feed, carriage return and space, by character code |
| Spelling.DenotesExactly | netplayd/include/query_parser.h:81-187 | a text without a fading token denotes a derivation tree if and only if its characters, blanks aside, are those of the tree's tokens |
| Spelling.FadingExactly | netplayd/include/query_parser.h:156-166 | the texts with a fading token are those that consist of tokens and a final lone `i`, `<`, `>`, `!` or `!i` |
| Spelling.FadingDenotesExactly | netplayd/include/query_parser.h:156-187 | such a text denotes a tree if and only if the tree's tokens are those in front of the final one, with or without it |
| Spelling.PrintDenotes | netplayd/include/query_parser.h:81-187 | the text of any query (operands non-empty and not `in`) denotes the query |
| Spelling.ParsePrinted | netplayd/include/query_parser.h:176-187 | so parsing the text of a query gives the query's expression |
| QueryParser.NegateOpExactly | netplayd/include/query_parser.h:281-301 | of the eight operators the negation of one is the only one that says the opposite of every pair of an attribute and a value, below, equal, above, listed or not |
| QueryParser.NegateOpMeans | netplayd/include/query_parser.h:281-301 | exactly the eight operators can be negated, and the result says the opposite |
| QueryParser.NegateBuilt | netplayd/include/query_parser.h:245-301 | negating any tree of the eight operators never throws and complements it wherever the negated operators are complements, which `QueryParser.NegateOpMeans` shows them to be; a tree without NOT gives one without NOT |
| Grammar.AcceptsExactly | netplayd/include/query_parser.h:182-243 | the parser accepts exactly the token sequences of the grammar |
| Grammar.ParsePreservesMeaning | netplayd/include/query_parser.h:182-301 | for every derivation tree of the tokens the parser returns its negation-free tree, with the truth value of the tree that keeps `!` under every assignment that gives the operators their meaning, and more locally under every assignment that flips at the predicates under a `!` |
| TextParser.Parser.Exp | netplayd/include/query_parser.h:190-201 | the loop over the lexer parses what the grammar function does from that token on, and has then looked at the next token |
| TextParser.Parser.Term | netplayd/include/query_parser.h:203-214 | likewise for terms |
| TextParser.Parser.Factor | netplayd/include/query_parser.h:216-243 | likewise for factors |
| TextParser.ParseText | netplayd/include/query_parser.h:176-187 | a text is accepted exactly when its tokens, or its tokens without a last one that fades when peeked at, are a sentence (in characters: the `Spelling` rows); the result has no NOT, no childless node, and the meaning of the sentence whenever operators have theirs |
| Addresses.NetworkExactly | netplayd/include/netplay_utils.h:158-176 | the range of a prefix is the set of addresses that share its first bits if and only if the bits of the address between the prefix and 32 minus the prefix are all set, as for every /16; a longer prefix gives at least its network, a shorter one at most |
| Addresses.ByteNetworks | netplayd/include/netplay_utils.h:158-176 | what /8, /16 and /24 give: a /24 ends where the /8 around it ends, a /8 where the /24 around its address ends |
| Addresses.IpRangeIs | netplayd/include/netplay_utils.h:14-27 | the mask table and the bit operations of `ip_range` clear the 32 minus prefix lowest bits and set the prefix lowest ones |
| Ranges.PortHolds | netplayd/include/netplay_utils.h:184-212 | every comparison operator and no other is accepted; `!=` holds the one port that `==` holds, `< 0` every port and more, and the others exactly the ports they say |
| Ranges.TimeHolds | netplayd/include/netplay_utils.h:249-267 | likewise for every 32-bit time, open ranges ending at the time of the query; `>` of the last second holds all times up to it |
| Ranges.PortMeansExactly | netplayd/include/netplay_utils.h:184-212 | a port range holds the ports its operator says if and only if the operator is not `!=` and the predicate is not `< 0` |
| Ranges.PortNegatesExactly | netplayd/include/netplay_utils.h:184-212 | flipping the operator complements the range if and only if it is `<=` or `>`, or `<` or `>=` with a positive port |
| Ranges.PortWalkableExactly | netplayd/include/netplay_utils.h:184-212 | the key after the range is still a port exactly for `<`, `==`, `!=` and `<=` away from the ends |
| Ranges.PortWindowWalkable | netplayd/include/netplay_utils.h:184-212 | a window of ports below the last one can be walked although its lower bound alone cannot |
| Ranges.TimeMeansExactly | netplayd/include/netplay_utils.h:249-267 | over the seconds up to the query, a time range means its operator if and only if it is not `!=`, `< 0` or `>` of the last second |
| Resolution.ResolvingResolves | netplayd/include/netplay_utils.h:121-136 | the store's resolver gives only the five index ids and otherwise throws |
| Resolution.SaysExactly | netplayd/include/netplay_utils.h:121-270 | the truth value that the ranges give any attribute, operator and value on any packet of a 32-bit second, spelled out per attribute and operator |
| Resolution.FlipsExactly | netplayd/include/query_parser.h:281-301 | on all TCP and UDP packets received so far the flipped operator is the complement if and only if the predicate is an ordering on a port or a time whose bound is not at the end where it wraps; never for addresses, `==` or `!=` |
| Resolution.SoundExactly | netplayd/include/query_parser.h:216-301 | so the negations of a whole query survive parsing on all such packets if and only if every predicate under a `!` is one of those |
| Clauses.Absorb | netplayd/include/netplay_utils.h:98-109 | folding later filters on the same index into one keeps the accepted assignments and the order in which indexes are used, and leaves no other filter on that index |
| Clauses.ReduceClause | netplayd/include/netplay_utils.h:96-119 | true leaves distinct indexes in their order, non-empty ranges and the same accepted assignments; the result is true if and only if some assignment satisfies the clause |
| Clauses.ReducedIntersects | netplayd/include/netplay_utils.h:96-119 | each range that reduction leaves holds exactly the tokens that all given ranges on its index hold |
| Clauses.FitExactly | netplayd/include/netplay_utils.h:96-119 | the reduced ranges all end inside their indexes (or before the last key) if and only if on each index some given range does |
| Clauses.BuildPacketFilter | netplayd/include/netplay_utils.h:69-94 | succeeds exactly for known indexes, with the filter whose fields are the last range given for each |
| Clauses.FilterMeansClause | netplayd/include/packet_filter.h:37-58 | on packets of any kind the built filter accepts exactly those that a clause with distinct indexes suits: every range on an attribute that the packet has holds it |
| Clauses.ReducedSuits | netplayd/include/netplay_utils.h:96-119 | reducing a clause does not change which packets it suits, with ports or without |
| Clauses.InsertFilterMeans | netplayd/include/packet_filter.h:60-78 | the filter applied at insertion selects, for any clause and packets of any kind, those in the last range given on each index, time ignored, and ports ignored for packets without them |
| Clauses.StoredFilterMeans | netplayd/include/packet_filter.h:37-58 | the filter applied to a stored packet selects likewise, and by the last time range, which must hold the packet's second modulo 2^32 |
| Clauses.ExtractMinFilter | netplayd/include/query_planner.h:65-80 | the first filter with the smallest count, and the clause without it |
| Clauses.PlanChoiceIrrelevant | netplayd/include/query_planner.h:82-97 | on TCP and UDP packets, whichever filter is run on an index, "token in its range and the rest accepted" is the whole clause |
| PlanChoice.ChoiceMattersExactly | netplayd/include/query_planner.h:82-97 | of all packets, running one filter finds some that running another does not if and only if the first is not on a port, the second is, and the ranges not on ports start inside their indexes |
| Clauses.MinimumIsChosen | netplayd/include/query_planner.h:65-80 | what is taken from the reduced clause is the cheapest of the non-empty intersections of the clause's ranges, one per index, the first on ties |
| Clauses.ChosenUnique | netplayd/include/query_planner.h:65-80 | clause and counts determine that choice |
| Clauses.RestExactly | netplayd/include/query_planner.h:82-97 | something is left for the packet filter if and only if the clause restricts more than one index |
| Planner.BuildClausePlan | netplayd/include/query_planner.h:82-97 | no plan if and only if the clause is unsatisfiable, counting outside an index if and only if a satisfiable clause has an index all of whose ranges end past its keys; otherwise the chosen range, a packet filter exactly when the clause restricts another index too, and a plan that selects exactly the packets that the clause suits and that have a token on the chosen index |
| Planner.ClauseFrom | netplayd/include/query_planner.h:33-39 | succeeds exactly when every child is a predicate with a range, with those ranges in order |
| Planner.Plan | netplayd/include/query_planner.h:21-62 | rejects exactly the shapes other than predicate, AND of predicates, OR of ANDs (a NOT gets an empty plan); otherwise the plans of the satisfiable clauses in their order, or the lone predicate's range without a filter |
| Planner.PlanSelects | netplayd/include/query_planner.h:21-62 | such a plan selects exactly the TCP and UDP packets of the expression, and of other packets those that some satisfiable clause suits which is not run on a port |
| Planner.RunsExactly | netplayd/include/query_planner.h:21-97 | all its ranges can be walked if and only if the chosen range of each satisfiable clause ends before the last key and a lone predicate's range is non-empty and does too |
| Planner.WalkableRuns | netplayd/include/query_planner.h:21-97 | whatever the counts, that is so when each satisfiable clause has on each index a range that ends before the last key |
| Cursors.WalkReadsExactly | logstore/include/filterresult.h:87-96 | a walk ends with every position it read readable if and only if no list after the first token is empty and every entry of the range is readable |
| LiveStore.LiveWalk | logstore/include/logstore.h:620-666 | in any reachable state, bursts in flight or not, a walk ends without following a null pointer if and only if no list after the first token is installed and still without a reservation and every reserved slot of the range has its bucket; with the bound from `num_ids()` it then yields exactly the published packets with a token in the range, what stands below the bound in slots not yet set, and its first entry |
| LiveStore.UnsafeNeedsPusher | logstore/include/tieredindex.h:207-210 | with non-empty bursts only a push in progress onto the range can make a walk unsafe |
| LiveStore.NewListTraps | logstore/include/tieredindex.h:207-210 | a reachable state with non-empty bursts in which a walk never ends, because a list is installed and not yet reserved in |
| LiveStore.MissingBucket | logstore/include/monolog.h:589-593 | a reachable state in which a walk reads a reserved slot whose bucket does not exist |
| LiveReader.ReaderExact | logstore/include/filterresult.h:28-125 | a reader interleaved with the writers, one load per step, while lists grow: if it comes to its end it has handed out every packet below its bound with a token in the range, each once, and nothing else but its first entry and what it found in slots not yet set |
| LiveReader.ReaderEnds | logstore/include/filterresult.h:28-125 | on a state whose lists of the range are not new and have their buckets, a reader that nobody disturbs comes to its end |
| LiveReader.SoloReader | logstore/include/filterresult.h:28-125 | so it does in every reachable state with non-empty bursts and no push in progress on the range |
| IdleStore.SettledWalk | logstore/include/logstore.h:620-666 | with nothing in flight a walk of an index yields exactly the packets with a token in the range, each once, none cut by the bound |
| IdleStore.SettledWalkReads | logstore/include/monolog.h:173-179 | and follows no null pointer |
| Cast.FilterPkts | netplayd/include/packetstore.h:255-273 | the union of what the clause plans yield, if and only if every chosen range can be walked inside its index |
| Cast.ClauseIdsAre | netplayd/include/packetstore.h:255-273 | a clause plan yields exactly the packets it accepts, and its first index hit if it has a packet filter |
| Cast.TokenAgrees | netplayd/include/packetstore.h:255-273 | exactly the five index ids lead to an index, the one where a record is entered under the token that the filters compare |
| Cast.PlanAnswers | netplayd/include/packetstore.h:255-273 | the plan of an expression returns exactly the packets the expression answers and, for each satisfiable clause that restricts more than one index, the first index hit of its chosen range |
| Cast.ExtraUnique | netplayd/include/packet_filter.h:201-203 | so at most one extra id per clause |
| Cast.ExecuteCast | netplayd/include/packetstore.h:275-280 | plan then run, over any reachable store with nothing in flight, whatever the packets, in terms of the expression, the ranges and the counts alone: answered if and only if the shape is plannable, the counted ranges end inside their indexes and the chosen range of each satisfiable clause can be walked; the answer is exactly the expression's TCP and UDP packets, the other packets that a satisfiable clause not run on a port suits, and the extra ids of the clauses |
| UncheckedHit.RejectedPacketReturned | netplayd/include/packet_filter.h:201-203 | a reachable store of one packet and a query that rejects the packet and whose cast returns it |
| CastQuery.ExecuteQuery | netplayd/include/cast_builder.h:36-50 | the same from the query text: refused if it denotes no sentence (in characters: the `Spelling` rows), otherwise it ends as the cast of the parsed expression; on TCP and UDP packets the answer is also that of the text with its negations, wherever flipped ranges are complements, and the extra ids |
| Resolution.AnswerSays | netplayd/include/cast_builder.h:36-50 | with the attributes of the store: when every predicate under a `!` can be flipped, such an answer holds of the TCP and UDP packets received by the time of the query exactly those of which the text holds, predicates as `Resolution.SaysExactly` reads them, and the extra ids |
| Standing.BuildFilterList | netplayd/include/netplay_utils.h:33-67 | accepts the shapes `plan` accepts; of packets of any kind the filters select exactly those that some clause keeps when only its last predicate per attribute of the packet counts and time is ignored |
| Standing.SimpleMeans | netplayd/include/netplay_utils.h:33-67 | with one predicate per attribute and none on time that is what the expression says of TCP and UDP packets |
| StandingExact.FaithfulExactly | netplayd/include/packet_filter.h:60-78 | of the packets with ports, and likewise of those without, the insertion filter of a clause keeps exactly the ones that suit the clause if and only if it keeps none, or within the token spaces the last range on each of their indexes lies inside the others and the time ranges are full |
| StandingExact.WindowUnfaithful | netplayd/include/netplay_utils.h:69-94 | a window of ports given as two predicates is a clause that it does not keep |
| Standing.QueryCharacter | netplayd/include/packetstore.h:282-296 | the ids of a character registered for an expression, for seconds t1 to t2 before the last second, are exactly the packets of any kind inserted then that its filters keep, each once; `size()` and `packet_counter` give their number |
| Standing.WindowIsCast | netplayd/include/packetstore.h:282-296 | for such simple expressions a cast returns every TCP and UDP packet of the window, and of those seconds nothing else of any kind but the window and the extra ids of the clauses |
| TokenBucket.Bucket.constructor | pktgen/include/token_bucket.h:19-25 | a full bucket at the given rate |
| TokenBucket.Bucket.Consume | pktgen/include/token_bucket.h:33-50 | refills, caps, then grants exactly when strictly fewer tokens are asked for than are there; `TokenBucket.GrantExactly` says over whole runs when that is |
| TokenBucket.TokensConserved | pktgen/include/token_bucket.h:33-50 | over any run, granted + spilled + left = initial + rate times time, where a refill spills what exceeds the capacity and nothing else, and availability stays within zero and capacity |
| TokenBucket.GrantExactly | pktgen/include/token_bucket.h:33-50 | after any run a request is granted if and only if it is below capacity, below the initial level plus rate times time minus the grants so far, and, for every earlier request, below capacity plus rate times the time since then minus the grants since |
| TokenBucket.LevelBounded | pktgen/include/token_bucket.h:33-50 | availability is within zero and capacity after every prefix of every run |
| TokenBucket.RateBound | pktgen/include/token_bucket.h:33-50 | in any window of any run the tokens granted are at most capacity plus rate times the time between its first and last request, and strictly fewer if any were granted |
| TokenBucket.EarnIsRateTimesTime | pktgen/include/token_bucket.h:37 | what is earned is rate times time |
| TokenBucket.GrantedAfterRest | pktgen/include/token_bucket.h:44-48 | after a rest long enough to fill the bucket a request is granted exactly when it is below capacity |

## Left out

- Weak memory: steps are sequentially consistent; acquire and release orderings are not modelled.
- DPDK, virtual ports, the daemon, the command line and the benchmarks: input, output and foreign calls. A packet is its bytes, read as zero past its end, and shorter than 65536 bytes.
- The single-record path `log_store::insert` and `offsetlog::start`: the same protocol with blocks of one record and one index update order; only the burst path is modelled.
- `log_store::handle::insert`: its byte blocks are not exclusive.
- Bulk `set`, `set_unsafe` and `get` of the doubling-bucket log: unused by the modelled code.
- `monolog_linearizable`, index registration and `add_complex_character`: indexes and characters are fixed before the first insert.
- The allocation of blocks by `ensure_alloc`, the installation of a list through its tiers and the allocation of a bucket are each one step of the publish machine; the races inside them are the subject of `InstallOnce`.
- What the program does after an access has left its memory: the theorems about stored bytes and entries require that none has. The list theorems (`SnapshotExactAndStable`, `EachEntryOnce`, `Conservation`) speak of the lists as reserved and filled, and so of the program only within the same limits.
- PublishTheorems.SnapshotExactAndStable: speaks of slots that have been set; what readers beside writers get is stated by `LiveStore.LiveWalk` and `LiveReader.ReaderExact`.
- LiveReader.ReaderExact: speaks of readers that come to their end; one beside writers need not, since lists may grow for ever and the program may follow a null pointer; one that nobody disturbs does, by `LiveReader.ReaderEnds`. Casts and characters are stated for a store with nothing in flight.
- TieredIndex.Index.Get: the cell arrays are values reassigned by the method; lists are references, so aliasing of lists is modelled and aliasing of inner tiers is not. Sizes are a list, so depths 1 to 4 are instances.
- InstallOnce.StepInv: pushing onto an installed list is one step; the slot reservation inside it is part of the publish machine. Keys are given as paths, which `TieredIndex.KeyOfPath` and `TieredIndex.PathOfKey` show to be one-to-one.
- MonoLog.Log.Set: elements are natural numbers; 64-bit truncation of the stored value is not modelled.
- The conversions of a value to numbers (`sscanf`, `stoi`, `stol`): a parameter of `Resolution`. A port is given as the 16 bits it is stored in, a prefix as a number up to 32; the program reads outside its mask table for any other.
- Casts and plans take any resolver from predicates to ranges; `Resolution` is the one of the store.
- Cast.ExecuteCast: that a range leaves its index is an outcome of its own; what the program reads there is not modelled.
- TextParser.ParseText: requires a text without the byte 0xFF, which the lexer takes for the end of its input each time it meets one and reads on behind it; what a text with such bytes denotes is not modelled.
- CastQuery.ExecuteQuery: requires the same.
- Standing.QueryCharacter: requires a window that ends before the last second and does not end before it starts; outside it the program leaves the index or does not end.
- Exception texts: each kind of `parse_exception` is one constructor of an error type.
- TokenBucket.RateBound: real arithmetic; rounding of doubles is not modelled, and the clock is an argument that never goes back.
- Destructors, `storage_size`, `max_size`, aggregates, attributes, path checks, streams, expression printing: would only add easy members.

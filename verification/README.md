# A verified model of OpenDAX

OpenDAX is a tag database server with a client library and a Modbus module. This project models its
data path in Dafny and proves what it promises over all inputs and all runs: where the parts of a
compound type lie and how names resolve to them, the tag database and its name index, the client's tag
cache, transfers of bit ranges, events, atomic operations, data maps, overrides, queue tags, and the
Modbus TCP path from a command to the registers of a slave and back.

Verify it with `dafny verify dfyconfig.toml`.

| file | about |
|---|---|
| `Common.dfy` | optional values and error codes |
| `Bits.dfy`, `Store.dfy` | single bits of byte buffers, plain and masked writes |
| `Crc16.dfy` | the table-driven Modbus checksum against its bitwise definition |
| `Types.dfy` | layout of compound types (CDTs), computed by server and client |
| `Text.dfy`, `CdtText.dfy` | compound types as text, printed and parsed by the server |
| `ClientTypes.dfy`, `ClientSizes.dfy`, `ClientNames.dfy` | the client's cache of compound types, its recursive fetch, and the sizes and names it gives |
| `Handles.dfy`, `Landing.dfy`, `Names.dfy` | tag names with members, subscripts and bit numbers; exactly where they lead, from their text on |
| `TagBase.dfy` | slots, sorted name index, bisection |
| `TagCache.dfy`, `CacheRuns.dfy` | the client's cache ring, and the cache together with the server |
| `Transfer.dfy` | packing, masked writes, transfers split into messages |
| `Access.dfy` | from names to data: parts of a tag do not disturb each other |
| `Events.dfy`, `EventRuns.dfy`, `EventSessions.dfy` | event handlers, events over whole runs, and the runs that messages make |
| `Atomic.dfy`, `Mapping.dfy` | atomic operations, data maps over whole runs |
| `TagQueue.dfy`, `Override.dfy` | queue tags, overrides |
| `ModbusSlave.dfy`, `ModbusServer.dfy`, `ModbusMaster.dfy` | responses, reassembly of frames, the register machine |

Code that changes buffers, rings and tables in place is modelled by methods on arrays and objects, each
proved against a function or predicate on values; the properties over runs are lemmas about those.
Numbers are unbounded except where a width matters: the bit field of a handle, the checksum, deadband
differences and the bytes of frames.

Some intended properties do not hold of the code. For each of these a lemma or contract
states exactly when the property holds, and so also that it fails otherwise:

- A numbered bit or a nested type is resolved without aligning the cursor first, and the cursor counts bits in
  one byte (`Landing.PathExact`, `Landing.NameExact`, `Landing.SampleLands`, `Landing.MisplacedBool`).
- An indexed BOOL may leave a bit field of eight or more, which a write takes modulo eight without moving to
  the next byte, so that it changes another part of the tag (`Landing.BitFieldExact`, `Landing.PlaceExact`,
  `Access.ProbeName`, `Access.Disturb`, `Landing.LostCarry`).
- A shifted BOOL write of whole bytes sends one byte too many and is refused at the end of a tag
  (`Transfer.RefusedInRange`, `Transfer.RefusedExample`). Modbus coil writes that end there are lost
  although they are acknowledged (`ModbusMaster.LostWrites`, `ModbusMaster.LostExample`).
- A compound type with a count that is not positive is accepted by the server and refused by the client. A type
  that needs such a type, or one whose text does not fit a message, is cached with success but without the types
  of those members (`ClientTypes.TypeCache.AddCdtToCache`, `ClientTypes.ImagesExact`, `ClientTypes.ZeroCount`,
  `ClientTypes.ZeroNeeded`).
- Where every count is positive, a type that needs one whose text does not fit a message then has a smaller size on
  the client, and names that pass such a member lead to an earlier place (`ClientSizes.SizesAgree`,
  `ClientNames.ClientParse`).
- Deadband differences of signed, 32-bit and 64-bit types wrap (`Events.DeadbandExact`,
  `Events.WrongDistance`, and over runs `EventRuns.SentIffEscapes`).
- OR, AND and XOR leave out the last byte of a range that ends on a byte boundary, and take whole-byte
  operands from the offset of the range (`Atomic.Exact`, `Atomic.WrongCase`).
- A queue that grows while it is wrapped keeps blocks in two slots (`TagQueue.TagQueue.Write`,
  `TagQueue.Drive`, `TagQueue.BreaksFrom`, `TagQueue.Overtaken`).
- The buffers of a first override are only partly cleared (`Override.CleanExact`).

## Model

| member | source | states |
|---|---|---|
| Crc16.Checksum | src/modules/modbus/mbutil.c:70-83 | the table-driven loop computes, for a message of any length, the reflected 0xA001 checksum defined bit by bit in section 6.2.2 of MODBUS over Serial Line V1.02, in sending order |
| Crc16.Check | src/modules/modbus/mbutil.c:88-97 | a frame passes exactly when its last two bytes are the checksum of the rest, that is, when the reference register is zero after the whole frame; shorter frames fail |
| Crc16.TableHi | src/modules/modbus/mbutil.c:24-43 | all 256 entries of the first table are the low bytes of eight reference shifts |
| Crc16.TableLo | src/modules/modbus/mbutil.c:45-65 | all 256 entries of the second table are the high bytes of eight reference shifts |
| Crc16.TableStep | src/modules/modbus/mbutil.c:77-81 | one turn of the table loop is one byte of the reference register |
| Crc16.Residue | src/modules/modbus/mbutil.c:88-97 | two further bytes bring the register to zero exactly when they are the checksum |
| Crc16.AcceptsIffZero | src/modules/modbus/mbutil.c:88-97 | comparing the checksum and testing the register after the whole frame for zero are the same |
| Crc16.SealedAccepted | src/modules/modbus/mbutil.c:70-97 | every message with its checksum appended passes |
| Crc16.RegisterLinear | src/modules/modbus/mbutil.c:70-83 | the register of a difference is the difference of the registers |
| Crc16.AcceptedNeighbour | src/modules/modbus/mbutil.c:88-97 | a frame of the length of an accepted one is accepted exactly when their difference alone gives register zero |
| Crc16.BurstRejected | src/modules/modbus/mbutil.c:70-97 | every change of an accepted frame that is confined to sixteen consecutive bits, at any bit position and including the checksum bytes, is rejected |
| Crc16.OddRejected | src/modules/modbus/mbutil.c:70-97 | every change of an accepted frame that flips an odd number of bits is rejected |
| Types.TypeSize | src/server/tagbase.c:1404-1448 | the server loop returns the size of the recursive bit layout, or not-found for an unknown type |
| Types.CdtIter | src/lib/libcdt.c:803-838 | the byte and bit handed to the callback for every member are the start of that member in the same layout |
| Types.Disjoint | src/server/tagbase.c:1415-1445 | members lie in declaration order without overlap and end inside the type, and members other than BOOL start and end on bytes |
| Types.Stable | src/server/tagbase.c:1404-1448 | creating further types changes the size of no existing type |
| Types.CodesGiveWidths | src/opendax.h:39-59 | the width of every base type is one shifted by the last four bits of its code |
| Handles.Handle.SkipBits | src/lib/libcdt.c:579-584 | stepping over a BOOL member moves the cursor by its bits, less a multiple of 256 when the 8-bit bit field overflows |
| Handles.ParseBitIndex | src/lib/libcdt.c:519-550 | the handle for a numbered bit of an integer, or the error, is the one of the resolution function |
| Handles.SkipMembers | src/lib/libcdt.c:575-599 | the member loop stops at the first member of that name with the cursor where the resolution function has it |
| Handles.LastItem | src/lib/libcdt.c:615-650 | the handle, or the error, for the last name of a path, for BOOL and other members, indexed or not |
| Handles.ParseNextMember | src/lib/libcdt.c:552-653 | for every path the handle that the recursive parser leaves, or its error code, is the value of the resolution function |
| Handles.WholeTag | src/lib/libcdt.c:697-730 | the handle, or the error, for a tag without a member path |
| Handles.TagHandle | src/lib/libcdt.c:657-732 | for every name string: malformed subscripts, unknown tags, and otherwise the handle of the resolved item; the rows of `Names` say what that is for names as they are written |
| Handles.SplitRead | src/lib/libcdt.c:474-489 | for every name without a dot: alone it has no rest, and before a dot and anything else it is split off at that dot |
| Handles.IndexRead | src/lib/libcdt.c:496-514 | for every name and every run of digits: no bracket is no subscript, digits up to a closing bracket or the end are that number, and any other character before the closing bracket is an error |
| Names.StepRead | src/lib/libcdt.c:496-514 | for every plain name and every number n, the name with n printed in brackets reads as that name and n |
| Names.PathRead | src/lib/libcdt.c:474-514 | for every path of plain names, numbers and bit numbers, its text is taken apart into the first step and the text of the rest |
| Names.LocateRead | src/lib/libcdt.c:552-653 | at every depth, the place of the text of a path is the place computed from the members, element numbers and bit number themselves, as sums of starts and multiples of widths |
| Names.NamedHandle | src/lib/libcdt.c:657-732 | for the text of every path: the handle is at that place, with that type and count, or the error is that of the layout, if and only if the parser does not fall behind on the way, which it never does without a dot |
| Names.ElementHandle | src/lib/libcdt.c:657-732 | for every tag, n and count, the text of the name of element n gives the handle n elements into the tag if the elements exist, and otherwise ERR_2BIG |
| Handles.LocateInside | src/lib/libcdt.c:552-653 | what a path names by the layout, with all elements from there on, lies inside the type it starts from, provided that the element a numbered bit is taken from exists |
| Landing.ResolveRefusal | src/lib/libcdt.c:552-653 | which paths the parser refuses, and with which code, wherever its cursor is |
| Landing.LocateRefusal | src/lib/libcdt.c:552-653 | by the layout the same paths are refused with the same codes, and besides them only numbers of bits that do not exist |
| Landing.LagExact | src/lib/libcdt.c:575-599 | how many bits the cursor of the parser is behind the layout at every member, for a parser that has entered the type any number of bits behind: exactly below eight, and eight or more for good after that |
| Landing.PathExact | src/lib/libcdt.c:552-653 | for every type table and path, and a parser that enters the type any number of bits behind, the item is found where the layout has it if and only if the path is refused or lands, a condition on the type table and the path alone |
| Landing.NameExact | src/lib/libcdt.c:657-732 | the same for every name of a tag, with its subscript, member path or bit number |
| Landing.InsideTag | src/lib/libcdt.c:657-732 | what a name denotes lies inside the tag when the element named by its subscript exists, and past the end of the tag otherwise |
| Landing.ParsedInside | src/lib/libcdt.c:552-653 | what the parser finds, whether it lands or not, lies with all its elements inside the type its path starts from |
| Landing.BitFieldExact | src/lib/libcdt.c:615-650 | on every path the bit field of the handle is below fifteen, and below eight if and only if no carry is lost in an indexed BOOL |
| Landing.NotAhead | src/lib/libcdt.c:552-653 | the parser never finds an item further on than the layout has it, and always finds the same type and number of elements |
| Landing.PlaceExact | src/lib/libdata.c:535-550 | a write by name lands on the bits that the layout gives the name if and only if the name lands and no carry is lost; the two mistakes never cancel |
| Landing.SampleLands | src/lib/libcdt.c:601-616 | in a family of nested types, BOOLs are never found where they are, and the INT after n of them exactly when n is a multiple of eight or leaves more than five bits |
| Landing.MisplacedBool | src/lib/libcdt.c:601-608 | a concrete type and path on which the parser looks at bit 3 for what the layout has at bit 8 |
| Landing.LostCarry | src/lib/libcdt.c:625-630 | a concrete type in which a write to element 6 of one member lands on element 1 of another |
| CdtText.ValidateName | src/server/tagbase.c:132-150 | the loop accepts exactly the names of legal length and characters, and returns the code of the first offence |
| CdtText.ValidNameIs | src/server/tagbase.c:132-150 | legal names by their character codes and length |
| CdtText.BaseTable | src/server/tagbase.c:1049-1080 | the name, the code and the width of every base type |
| CdtText.GetType | src/server/tagbase.c:1044-1088 | a name leads to a base type or to the oldest compound type of that name, ignoring case, and fails only when there is none; `CdtText.GetTypeIs` says the same character by character |
| CdtText.GetTypeIs | src/server/tagbase.c:1044-1088 | a name stands for a type if and only if it differs from the name of the type in the case of letters only, and, for a compound type, from those of all base types and older types by more |
| CdtText.GetTypeVariant | src/server/tagbase.c:1044-1088 | two spellings of a name that differ in the case of letters only stand for the same type |
| CdtText.CreateVariant | src/server/tagbase.c:960-1039 | a creation request whose name differs from that of a base type or an existing type in case only never adds a type |
| CdtText.MemberVariant | src/server/tagbase.c:912-919 | an otherwise good member is refused as a duplicate if and only if its name differs from that of an earlier member in case only, or not at all |
| Text.SameTextIs | src/server/tagbase.c:1044-1088 | the comparison that ignores case is equality but for the codes 65 to 90 and 97 to 122, taken 32 apart |
| CdtText.SerializeDatatype | src/server/tagbase.c:1352-1400 | the measuring pass gives the length of the built string plus its terminator, and the string is the canonical text of the type |
| CdtText.CdtAppend | src/server/tagbase.c:885-952 | a member description yields a new last member, or the code of its first fault |
| CdtText.TypeTable.CdtCreate | src/server/tagbase.c:960-1039 | the table and the answer after a creation request, including duplicates, errors and the roll-back |
| CdtText.CreateLegal | src/server/tagbase.c:960-1039 | every request leaves a legal table legal and only ever adds a type at its end; a refused request changes nothing |
| CdtText.Requests | src/server/tagbase.c:960-1039 | in every table reached by any sequence of requests, members refer only to types with smaller indices, which is why the recursion over types ends |
| CdtText.TypeFound | src/server/tagbase.c:1044-1088 | the printed name of a type leads back to that type, in its own table and in every later one |
| CdtText.SerializedTokens | src/server/tagbase.c:1352-1400 | cutting the canonical text at its colons gives back the name and the member texts |
| CdtText.ServerRoundTrip | src/server/tagbase.c:885-952 | parsing the canonical text of any type of a legal table rebuilds exactly its members |
| CdtText.Recreate | src/server/tagbase.c:960-1039 | asking for an existing type by its own text returns that type and leaves the table as it is |
| Text.PrintParse | src/server/tagbase.c:1394-1395 | printing a count and reading it with strtol, in base ten or with a prefix, undo each other |
| Text.Strtol0Reads | src/server/tagbase.c:900 | a count is read as hexadecimal after 0x or 0X and as octal after 0 |
| Text.PrefixReads | src/server/tagbase.c:900 | a number in a base is read digit by digit, each worth base times the next, up to the first character that is no digit |
| Text.StrtolReads | src/server/tagbase.c:900 | white space, a sign or none and digits are read as the number they print, up to the first character that is no digit |
| Text.HexDigitIs | src/server/tagbase.c:900 | the value of every digit character by its code |
| ClientTypes.TypeCache.StringToType | src/lib/libcdt.c:364-410 | for every table and every cache filled from it: the name of a member type gives its type, from the base types, the cache or a fetch, and type zero exactly when the type is not cached and cannot be fetched |
| ClientTypes.TypeCache.CdtGet | src/lib/libmsg.c:1420-1455 | fetching a type that is not cached: an error for unknown types and texts that do not fit one message, and otherwise the outcome of caching its text |
| ClientTypes.TypeCache.AddCdtToCache | src/lib/libcdt.c:185-241 | for every table: success if and only if the counts of the type itself are positive; types that it reaches have been added, each exactly once, each with its members up to the first bad count, members are without a type only where it could not be fetched, and all other entries are unchanged |
| ClientTypes.TypeCache.AddMember | src/lib/libcdt.c:50-98 | one member text adds one member, with its type or without it, or gives an error for a count that is not positive |
| ClientTypes.ImagesExact | src/lib/libcdt.c:185-241 | after a fetch the type and all that it reaches are images of the types of the server if and only if its counts are positive and every other type it reaches was cached as its image or can be fetched |
| ClientTypes.ReachUsed | src/lib/libcdt.c:364-410 | where every used type is an image, a used type has every type that it reaches in the cache |
| ClientTypes.NameIsIndex | src/lib/libcdt.c:386-405 | in a legal table the search of the cache by name, ignoring case, can only meet the type that is meant |
| ClientTypes.ZeroCount | src/lib/libcdt.c:78-96 | a concrete request that the server accepts and whose type the client then refuses to cache |
| ClientTypes.ZeroNeeded | src/lib/libcdt.c:393-398 | a second request that uses the type of the first: the client caches it with success, but without the type of its member |
| ClientSizes.LongIsLarge | src/server/message.c:745-749 | a type whose text does not fit one message has more than one byte |
| ClientSizes.CachedSize | src/lib/libcdt.c:119-150 | the size loop over the cached members never gives more than the size of the layout of the server, and gives the same if and only if the type and all that it reaches are images |
| ClientSizes.TypeSizeOf | src/lib/libcdt.c:109-152 | the size of every type, worked out from the cache after fetching what is missing, with the same condition; an error for types that are unknown or cannot be fetched |
| ClientSizes.StaysSensible | src/lib/libcdt.c:185-241 | a fetch keeps all entries complete and leaves types out only where the server could not send them |
| ClientSizes.SizesAgree | src/lib/libcdt.c:109-152 | client and server work out the same size, from their own tables, if and only if every type that is needed was cached as its image or can be fetched; for base types always, BOOL excepted |
| ClientNames.MemberBytes | src/lib/libcdt.c:109-152 | the size of a member type on the client falls whole bytes short of the layout, and is the same if and only if nothing of the type is missing; minus four for a type that is missing itself |
| ClientNames.ClientSkip | src/lib/libcdt.c:575-599 | over the types of the client the member loop stops at the same member, whole bytes short of where it stops over the types of the server, and at the same place if and only if nothing is missing of the members before |
| ClientNames.ClientParse | src/lib/libcdt.c:552-653 | for every path: over the types of the client the parser fails wherever it fails over those of the server; where that finds an item, it gives not-found or a place that is not further on, and the same place, type, count and size if and only if nothing that it needs for the path is missing |
| ClientNames.ImagesLevel | src/lib/libcdt.c:552-653 | when a type and all that it reaches are images, nothing is missing for any path |
| TagBase.Bisect | src/server/tagbase.c:154-174 | the search loop finds the name, or the position between the neighbours where it belongs |
| TagBase.SearchIsScan | src/server/tagbase.c:154-174 | bisection of the index returns slot i exactly when i is the one live slot of that name |
| TagBase.CompareFirst | src/server/tagbase.c:154-174 | the order of the index is that of the first characters that differ, a prefix first |
| TagBase.AddConsistent | src/server/tagbase.c:222-262 | inserting an entry keeps the index strictly sorted and in bijection with the live slots |
| TagBase.DeleteConsistent | src/server/tagbase.c:264-287 | removing an entry keeps the index strictly sorted and in bijection with the live slots |
| TagBase.UpdateConsistent | src/server/tagbase.c:490-513 | changing a tag in place keeps the index consistent |
| TagBase.Database.GetByName | src/server/tagbase.c:154-174 | the result is that of a linear scan of the live slots |
| TagBase.Database.TagAdd | src/server/tagbase.c:451-578 | the slots and the result after every request, including the growth of an existing tag, and the index invariant; the rows on runs say what becomes of the data |
| TagBase.GrantedIs | src/server/tagbase.c:431-445 | a tag is retained if asked for, else owned if asked for, and read-only only if owned; nothing else is granted |
| TagBase.Database.TagDel | src/server/tagbase.c:602-649 | the slots and the result after every request, and the index invariant |
| TagBase.Database.TagRead | src/server/tagbase.c:736-780 | the error of every request in its order of tests, and the bytes asked for |
| TagBase.Database.TagWrite | src/server/tagbase.c:783-822 | the error of every request, exactly the addressed bytes replaced, and the invariants kept |
| TagBase.RunKeeps | src/server/tagbase.c:451-649 | over any run of additions and deletions a slot keeps the name, type and owner it was created with, loses no attribute, and has the bytes it had as the first of its bytes; a dead slot stays dead |
| TagBase.ReadsTheSame | src/server/tagbase.c:490-780 | a range that can be read reads the same after any further additions and deletions, for as long as its tag lives |
| TagBase.NewReadsZeros | src/server/tagbase.c:521-538 | a new tag gets the next index and reads as zeros, also after any further additions and deletions |
| TagBase.DeletedForGood | src/server/tagbase.c:602-649 | from any table of known types: after any further run a deleted slot is not found under any name and refuses every read and write |
| TagBase.StepSized | src/server/tagbase.c:484-538 | every request keeps the buffer of each live tag as large as its type and count say |
| TagBase.TypesGrow | src/server/tagbase.c:123-129 | creating further types leaves every buffer the right size |
| TagCache.Cache.Hit | src/lib/libdata.c:64-97 | seen from the head, a hit swaps the entry with its predecessor, in rings of any length, and the ring stays a doubly linked cycle |
| TagCache.Cache.Check | src/lib/libdata.c:103-155 | the first matching entry is returned and moves up one place; without a match nothing changes |
| TagCache.Cache.Add | src/lib/libdata.c:159-199 | a new entry is appended, or replaces the last one when the cache is full |
| TagCache.Cache.Delete | src/lib/libdata.c:203-242 | exactly the first entry of that index is removed, and the ring stays linked |
| CacheRuns.NextTruthful | src/lib/libdata.c:103-242 | every lookup, addition, deletion and server request keeps every cached name and type equal to those its slot was created with, every cached count at most that of the slot, and the cache within max(1, limit) |
| CacheRuns.AlwaysTruthful | src/lib/libmsg.c:466-660 | over any run of client and server actions the cache never shows a name or type other than those the slot was created with, nor more elements than it has |
| CacheRuns.FetchedIsCurrent | src/lib/libmsg.c:560-660 | a tag that is not cached is fetched, by name or by index, with the index, name, type, count and attribute bits of its slot at that time |
| CacheRuns.Session | src/lib/libmsg.c:466-660 | any sequence of actions, carried out on the ring of the cache and on the slots and index of the server, is the run of those actions |
| Store.MergeInto | src/server/tagbase.c:850-856 | the merge loop gives the masked bytes |
| Store.MaskWrittenBit | src/server/tagbase.c:850-856 | a masked write changes exactly the selected bits of its range |
| Transfer.Pack | src/lib/libdata.c:527-550 | data and mask hold exactly the bits of the range, moved to their place in the first byte |
| Transfer.Unpack | src/lib/libdata.c:389-401 | exactly the bits of the range are moved to the front, and the others are cleared; a bit field of eight or more reaches the byte after the buffer |
| Transfer.SendWrites | src/lib/libdata.c:579-592 | a write split into messages of whole elements ends, equals the single write when it fits the tag, and a first part of it otherwise |
| Transfer.SendMasks | src/lib/libdata.c:551-564 | a masked write split into messages ends, equals the single masked write when it fits the tag, and a first part of it otherwise |
| Transfer.SendReads | src/lib/libdata.c:360-377 | a read split into messages of whole elements ends and equals the single read |
| Transfer.ChunkFills | src/lib/libdata.c:360-377 | each message of a transfer is the last one or has no room for another element |
| Transfer.MessagesFit | src/libcommon.h:95-101 | the limits of the three kinds of transfer are the most that fits a message of 4096 bytes |
| Transfer.TagWrite | src/lib/libdata.c:519-598 | the write goes through exactly when it is accepted, and then exactly the bits from the bit field modulo eight on, or the addressed bytes, change; a refused write has changed nothing or a first part of that |
| Transfer.TagRead | src/lib/libdata.c:353-409 | the read succeeds exactly inside the tag and returns the addressed bits or bytes, with those past the buffer taken from the byte that follows it |
| Transfer.RoundTrip | src/lib/libdata.c:519-598 | for every accepted range the bits written and those read, and for a bit field below eight what was written is read back and all other bits of the tag are unchanged |
| Transfer.Probe | src/lib/libdata.c:535-550 | for every BOOL handle there is a write that replaces the bits of one place from its target on, and no others, if and only if that place is the target |
| Transfer.RefusedInRange | src/lib/libdata.c:526-567 | a BOOL write inside the tag is refused if and only if it shifts whole bytes and ends in the last byte of the tag or fills one message |
| Transfer.RefusedExample | src/lib/libdata.c:526-532 | a concrete range inside a tag that cannot be written |
| Access.InMember | src/lib/libcdt.c:552-653 | the bits that a path denotes lie inside the member it begins with, and inside the element it goes through |
| Access.ItemsApart | src/lib/libcdt.c:552-653 | paths that diverge, at any depth, at a member or at an element, denote bits that are apart |
| Access.PartsApart | src/lib/libcdt.c:657-732 | the same for two parts of a tag, in the same element or in different ones |
| Access.Prepare | src/lib/libcdt.c:657-732 | every name gives an error or the one handle of its item, which carries exactly the first bit, the bit field and the width of the item |
| Access.WriteName | src/lib/libdata.c:519-598 | for every name: the write goes through if and only if the name is found and its handle is accepted, and then lands where `Landing.PlaceExact` says, with everything else unchanged |
| Access.WritePath | src/lib/libdata.c:519-598 | from the text of a name to the bytes of the tag: a write by the text of any path that lands replaces exactly the bits at the place computed from the path itself, and a name without a dot always lands |
| Access.ProbeName | src/lib/libdata.c:535-550 | for every BOOL name there is a write that replaces the bits the layout gives the name, and no others, if and only if the name lands and no carry is lost |
| Access.HandleInside | src/lib/libcdt.c:657-732 | the bytes of every handle lie inside the tag, whether its name lands or not, when the element named by its subscript exists |
| Access.Independent | src/lib/libdata.c:353-598 | for any two names of a tag, from name to data: exactly when both are found, the write is accepted and the read inside the tag, the place of the write holds what was written, everything else is unchanged, and the reads by the other name before and after deliver its bits, which are equal when the bits of the two are apart |
| Access.Disturb | src/lib/libdata.c:353-598 | conversely, when the bits that a write changes meet those that a read delivers, some write changes what is read |
| Access.PartsClear | src/lib/libcdt.c:552-732 | the names of diverging parts have bits that are apart, if both land and the one written loses no carry |
| Events.ChangeBits | src/server/events.c:73-92 | the shadow bits become the watched bits, and the event hits exactly when one of them differed |
| Events.ChangeBytes | src/server/events.c:94-105 | the overlapping bytes of the shadow become those of the tag, and the event hits exactly when one of them differed |
| Events.EdgeBits | src/server/events.c:109-173 | each SET (RESET) latch becomes the watched bit (its negation), and the event hits exactly when a bit has the wanted value and was not latched |
| Events.CompareElements | src/server/events.c:250-276 | the latch of each touched element tells whether its number is equal to, above or below that of the operand, other latches are unchanged, and the event hits exactly when one becomes latched |
| Events.AlignedIs | src/server/events.c:256-262 | the writes that these rows are about start before the range or on one of its elements |
| Events.NumberOne | src/server/events.c:180-192 | the number of a BYTE, SINT or CHAR by its byte |
| Events.NumberTwo | src/server/events.c:193-205 | the number of a WORD, UINT or INT by its two bytes, the lower first |
| Events.NumberFour | src/server/events.c:206-219 | the number of a DWORD, UDINT, DINT or TIME by its first four bytes |
| Events.NumberEight | src/server/events.c:220-232 | the number of a LWORD, ULINT or LINT by its eight bytes |
| Events.DeadbandElements | src/server/events.c:346-364 | each touched element beyond the deadband gets its value as the new reference, others keep theirs, and the event hits exactly when there is one |
| Events.DeadbandExact | src/server/events.c:280-344 | the distance is measured rightly for all pairs of values if and only if the type is an unsigned one of at most 16 bits or the deadband is at most 1 |
| Events.WrongDistance | src/server/events.c:290-322 | concrete values of every other type whose distance is measured wrongly |
| Events.EventHit | src/server/events.c:371-392 | one call brings the private state and the notification of every kind of event to what the specification says |
| EventRuns.StepTracks | src/server/events.c:404-422 | every write keeps the private state of every event in step with the tag, and a change event hits exactly when something watched has changed |
| EventRuns.AlwaysTracks | src/server/events.c:404-422 | over any run of writes, masked writes and atomic operations: shadows equal the watched data, set latches imply their condition, and no element exceeds the deadband by the measure of the code |
| EventRuns.DriftBelowBand | src/server/events.c:280-364 | over any run of an event that measures rightly, each element has its reported value or is less than the deadband away from it |
| EventRuns.SentIffEscapes | src/server/events.c:280-364 | in any run of such an event a step sends it if and only if it writes to an element that then is at least the deadband away from its reported value |
| EventRuns.ChangeIsExact | src/server/events.c:64-106 | in any run a step sends a change event if and only if it changed a watched bit or byte, for every overlap of the ranges |
| EventRuns.SentIffFires | src/server/events.c:109-276 | in any run a SET, RESET or compare event is sent if and only if some item it looks at satisfies its condition with its latch clear |
| EventRuns.EdgeTriggered | src/server/events.c:109-276 | in any run an item never fires twice without its condition failing in between |
| EventRuns.SentIffRises | src/server/events.c:109-276 | in any run from the creation of the event on, a step sends a SET, RESET or compare event if and only if it writes to a bit or element which then has the wanted value, or the wanted order to the operand as numbers, and did not have it before or was never written |
| EventRuns.LatchMeans | src/server/events.c:109-276 | in any such run a latch is set if and only if its item was written and satisfies the condition |
| EventRuns.WriteIsExact | src/server/events.c:371-422 | in any run a step sends a WRITE event if and only if it writes a watched byte; an empty write does so strictly inside the range |
| EventSessions.Session | src/server/message.c:567-611 | any sequence of writes, masked writes and atomic operations on a tag gives a history in which each step makes its change and every event reacts |
| EventSessions.HistoryIsRun | src/server/events.c:404-422 | every such history is, for every event on the tag, a run in the sense of the lemmas above |
| EventRuns.Event.constructor | src/server/events.c:489-571 | a new event starts in step with the tag, with all latches clear and the present values as the reported ones |
| EventRuns.BufferSizeIs | src/server/events.c:489-571 | the private buffer has one bit for each latch or watched BOOL, rounded up to bytes, or the size of the range |
| EventRuns.Tag.EventCheck | src/server/events.c:404-422 | every event on the tag reacts, each on its own buffer, and the result says which were sent |
| EventRuns.Tag.TagWrite | src/server/tagbase.c:783-822 | the bytes of the range are replaced and every event reacts |
| EventRuns.Tag.TagMaskWrite | src/server/tagbase.c:826-864 | the selected bits are replaced and every event reacts |
| Atomic.LeftShift | src/server/atomic.c:30-38 | every bit of the operand is moved up by the shift and zeros follow, in place |
| Atomic.Prepare | src/server/atomic.c:167-173 | the shifted and trimmed operand has the operand bits where it acts and neutral bits elsewhere |
| Atomic.Logic | src/server/atomic.c:158-318 | OR, AND and XOR combine exactly the bits that the prepared operand acts on, touch no byte outside the range, and refuse REAL types |
| Atomic.Exact | src/server/atomic.c:158-318 | operand bit n meets bit n of the range for all contents and operands if and only if a shifted range does not end on a byte boundary, or a range of whole bytes starts the tag |
| Atomic.WrongCase | src/server/atomic.c:166-182 | on every other range, contents and an operand on which the result is wrong |
| Atomic.Not | src/server/atomic.c:130-155 | exactly the addressed bits are inverted, for every BOOL range and every other type but REAL |
| Atomic.Perform | src/server/atomic.c:356-423 | the operation on the tag, followed by the reaction of its events to the range |
| Mapping.BuildMask | src/server/mapping.c:118-137 | the mask has ones exactly at the destination bits |
| Mapping.MoveBits | src/server/mapping.c:232-256 | the loop moves exactly the mapped bits from their source to their destination place |
| Mapping.MovedBit | src/server/mapping.c:232-256 | bit by bit, the moved buffer holds the source bits at the destination and zeros elsewhere |
| Mapping.Server.MapAdd | src/server/mapping.c:63-143 | refusals in the order of the tests, the existing map for a duplicate, and otherwise a new map at the head of the list that is valid for the tags; no map ever leads from or to a virtual tag or to a read-only one |
| Mapping.Server.CheckHandles | src/server/mapping.c:72-105 | the code of the first test that two handles fail |
| Mapping.HitIsExact | src/server/mapping.c:223-226 | a map is hit by exactly the messages that write a byte of its source, and by empty ones strictly inside it |
| Mapping.Server.MapCheck | src/server/mapping.c:211-275 | the contents of all tags after every map in the list has been looked at in order |
| Mapping.Server.Handle | src/server/message.c:567-611 | a write, masked write or atomic message changes its own tag as it should and then runs the maps of that tag; other tags that are virtual or read-only stay as they are |
| Mapping.Session | src/server/message.c:567-611 | any sequence of messages to any tags gives a history in which each message makes its change and then runs the maps of its tag |
| Mapping.HistoryIsRun | src/server/mapping.c:211-275 | with separate maps such a history is a run in the sense of the lemmas below if and only if no message writes to a bit of a destination itself |
| Mapping.OutsideSpares | src/server/mapping.c:211-275 | a message whose bytes are beside every destination writes to none of their bits |
| Mapping.MirrorBit | src/server/mapping.c:226-271 | a hit copies the mapped bits and changes no other bit of any tag |
| Mapping.PropagateSyncs | src/server/mapping.c:211-275 | a map in step stays in step and a map that is hit comes into step, whatever else is in the list |
| Mapping.PropagateOutside | src/server/mapping.c:211-275 | bits outside the destinations of the maps that are hit are left alone |
| Mapping.AlwaysMirrored | src/server/mapping.c:211-275 | once a message has touched the source of a map, its destination mirrors the source in every later state of any run of messages that spare destinations |
| Mapping.OthersKept | src/server/mapping.c:211-275 | a message changes no bit outside its own range and outside the destinations of the maps it hits |
| TagQueue.TagQueue.Write | src/server/virtualtag.c:78-113 | an item is appended to the contents if and only if it does not land in the block of a stored item that differs; wrong offsets and sizes are refused |
| TagQueue.TagQueue.Read | src/server/virtualtag.c:115-130 | the oldest item is returned and removed; an empty queue says so |
| TagQueue.TagQueue.Grow | src/server/virtualtag.c:90-101 | doubling keeps the contents, and keeps blocks unshared when the oldest item is in slot 0 |
| TagQueue.Drive | src/server/virtualtag.c:78-130 | over every run of writes and reads in which the ring only grows with its oldest item in slot 0, the items read followed by the items stored are the items written |
| TagQueue.NeverClobbers | src/server/virtualtag.c:102-108 | without shared blocks no write can land in a stored item |
| TagQueue.Breaks | src/server/virtualtag.c:90-108 | conversely, from every state in which the ring has to grow with its oldest item in another slot, some writes end with a newer item in the place of a stored one |
| TagQueue.BreaksFrom | src/server/virtualtag.c:78-130 | for every other run there is one that begins in the same way and after which the items read and stored are not the items written, so that the condition of `TagQueue.Drive` is exact |
| TagQueue.Overtaken | src/server/virtualtag.c:90-108 | a run from the empty queue that ends so |
| Override.Tag.Read | src/server/tagbase.c:762-777 | a read returns the overlaid bytes while the override is set and the own bytes of the tag otherwise |
| Override.Tag.OverrideAdd | src/server/tagbase.c:1218-1258 | the override buffers after an addition, including what new memory contains |
| Override.Tag.OverrideDel | src/server/tagbase.c:1260-1297 | the selected bits leave the override, which is dropped and cleared with its last bit |
| Override.Tag.OverrideSet | src/server/tagbase.c:1317-1344 | the flag is set only when there is an override, and can always be cleared |
| Override.Refines | src/server/tagbase.c:1218-1344 | every operation on the byte buffers is the intended one on single bits with optional forced values |
| Override.RunRefines | src/server/tagbase.c:762-777 | after every run a read shows the forced value of each bit that has one while the override is active, and its own value otherwise |
| Override.RawFromWrites | src/server/tagbase.c:783-864 | over every run the own bytes of a tag depend on the writes alone |
| Override.Revealed | src/server/tagbase.c:1260-1344 | clearing an override or deleting its last bit shows the own bytes of the tag again |
| Override.CleanExact | src/server/tagbase.c:1230-1245 | a first override is what was asked for whatever the new memory holds if and only if it reaches the end of the tag and the cleared bytes reach its start |
| ModbusSlave.WordOfBytes | src/modules/modbus/modbus.h:129-135 | a 16-bit number sent high byte first is read back |
| ModbusSlave.SwabTwice | src/modules/modbus/modbus.h:129-135 | exchanging the bytes of each register twice changes nothing |
| ModbusSlave.Node.WriteCoils | src/modules/modbus/database.c:25-73 | coils are written through the handle that the slave builds, or the write is lost when the tag server refuses it |
| ModbusSlave.Node.ReadCoils | src/modules/modbus/database.c:76-122 | coils inside the bank are read from their place |
| ModbusSlave.Node.WriteHold | src/modules/modbus/database.c:25-73 | exactly the bytes of the addressed registers are replaced |
| ModbusSlave.Node.ReadHold | src/modules/modbus/database.c:76-122 | registers inside the bank are read from their place |
| ModbusSlave.ReadBits | src/modules/modbus/modbus.c:753-800 | the response holds the addressed coils, or exception 2 outside the bank, or an overflow code |
| ModbusSlave.ReadWords | src/modules/modbus/modbus.c:803-833 | the response holds the addressed registers high byte first, or exception 2 outside the bank, or an overflow code |
| ModbusSlave.WriteBits | src/modules/modbus/modbus.c:957-976 | the coils take the bits of the request, or exception 2 with the bank unchanged |
| ModbusSlave.WriteWords | src/modules/modbus/modbus.c:977-988 | the registers take the words of the request, or exception 2 with the bank unchanged |
| ModbusSlave.CreateResponse | src/modules/modbus/modbus.c:872-1022 | response, return value and bank after each supported request, and exception 1 for other function codes or missing banks; an exception has the node and the function code of the request, the latter plus 128 |
| ModbusSlave.CreateException | src/modules/modbus/modbus.c:744-750 | three bytes: the node, the function code plus 128 (section 7 of MODBUS Application Protocol V1.1b3), and the exception code, with the rest of the buffer unchanged |
| ModbusSlave.RefusedReply | src/modules/modbus/modbus.c:744-1022 | a request for registers or coils that the node does not have changes nothing and is answered with the code plus 128 and exception 1 or 2 |
| ModbusServer.Connection.Feed | src/modules/modbus/mbserver.c:118-166 | a piece is only collected until the frame is complete, and then the request is served once and answered with its own transaction identifier and a matching length, leaving the buffer empty |
| ModbusServer.Deliver | src/modules/modbus/mbserver.c:118-166 | however a frame is cut into pieces of 1 to 100 bytes, exactly the last piece is answered, and with the response to the whole frame; a refusal is, byte by byte, the transaction and unit of the frame, length 3, the function code plus 128, and exception 1 or 2 |
| ModbusServer.NotYet | src/modules/modbus/mbserver.c:143-145 | no proper prefix of a frame counts as complete |
| ModbusMaster.SendRequest | src/modules/modbus/modbus.c:399-509 | the frame that is sent is header, unit, function code and body of the command, with every 16-bit field and register high byte first, given byte by byte |
| ModbusMaster.RequestArrives | src/modules/modbus/modbus.c:399-509 | the slave parses from the frame exactly the function, range and data that the master put in |
| ModbusMaster.HandleResponse | src/modules/modbus/modbus.c:562-596 | exception code, wrong device, wrong function, or the data of the response |
| ModbusMaster.Replies | src/modules/modbus/modbus.c:872-1022 | the response is an exception exactly when the command is refused, from the node of the command, with its function code plus 128, and with code 1 for a missing bank and 2 for a range outside it |
| ModbusMaster.Exchange | src/modules/modbus/modbus.c:399-596 | request, slave and response together: a read returns what the bank holds, a write replaces exactly its range, and a refused command reports its code and leaves the bank alone |
| ModbusMaster.Session | src/modules/modbus/modbus.c:399-596 | any sequence of commands, each cut in any way, is a run of the register machine |
| ModbusMaster.LastRegister | src/modules/modbus/modbus.c:803-988 | in any run a register holds, and a read returns, what the last command to cover it wrote |
| ModbusMaster.LastCoil | src/modules/modbus/modbus.c:753-976 | in any run a coil holds, and a read returns, what the last accepted command to cover it wrote |
| ModbusMaster.LostWrites | src/modules/modbus/modbus.c:957-976 | every coil write inside the bank is acknowledged; the bank is unchanged when the range covers whole bytes without being aligned to them and ends in the last byte of the coils, and otherwise takes the data |
| ModbusMaster.LostExact | src/modules/modbus/modbus.c:957-976 | the tag server refuses a coil write inside the bank if and only if its range is such a one |
| ModbusMaster.LostExample | src/modules/modbus/modbus.c:957-976 | a concrete coil write that is lost |

## Left out

Parts of OpenDAX that the model does not cover:

- Sockets, serial ports, select loops, timeouts, threads, logging, configuration and command line tools: input and output.
- SQLite retention and the Lua bindings and callbacks: foreign libraries.
- Special and virtual tags other than queues, read-only and owned tags beyond the refusals named in the table, and module registration.
- The system status tags that tag_add, tag_del and the override functions update, and the counters behind them: not kept in step by the code.
- dax_fqn, which is no inverse of the name resolution.
- Atomic increment and decrement (easy), and NOR, NAND and XNOR, which index the tag without its offset.
- event_del, events_cleanup, map_del, map_get, override_get and the group functions: lists of events and maps are taken as given.
- Function codes 2, 4, 5, 6 and 8 of the slave, the RTU and ASCII protocols, and conditional sending in the master: easy variants, or incomplete in the code.
- Byte-order conversion between module and server, which is the identity.
- Allocation failure. New memory is taken as arbitrary in `Override` and `TagBase`, and as zeroed in the places named below.

Contracts that say less than they might, or ask more than the code tests:

- Crc16.Checksum: the 16-bit length parameter does not wrap for messages of more than 65535 bytes.
- Types.TypeSize: every type has members, every member has a count of at least one, and members refer to older types; sizes are unbounded, so 32-bit wrap-around of huge types is not modelled.
- Types.CdtIter: the same conditions on the types.
- Handles.SkipMembers: the same conditions on the types, and all types that are needed are cached as images; `ClientNames.ClientSkip` is the loop without this.
- Handles.ParseNextMember: only compound members are descended into, because the code looks up a type that does not exist otherwise. All types that are needed are cached as images; `ClientNames.ClientParse` is the parser without this.
- Handles.LastItem: all types that are needed are cached as images.
- Handles.TagHandle: the tags the server knows are given as a map, only compound members are descended into, subscripts do not wrap at 32 bits, and all types that are needed are cached as images, so that the sizes of the client are those of the layout.
- Names.NamedHandle: the conditions of `Handles.TagHandle`; names have no dots or brackets, and a name after a dot does not begin with a digit, which would make it a bit number.
- Handles.LocateInside: the element that a numbered bit is taken from exists, because the code does not look.
- Access.Prepare: only compound members are descended into, and all types that are needed are cached as images.
- Access.WriteName: only compound members are descended into, and the caller's buffer has a known length.
- Access.WritePath: the conditions of `Names.NamedHandle` and `Access.WriteName`.
- Access.ProbeName: only compound members are descended into.
- Access.HandleInside: the element that a numbered bit is taken from exists, because the code does not look.
- Access.Independent: only compound members are descended into. Bits that are not apart are disturbed by some write, as `Access.Disturb` states.
- CdtText.CdtAppend: counts are unbounded and do not wrap at 32 bits.
- CdtText.TypeTable.CdtCreate: the request holds at least one token, and a compound type named like a base type is answered as a duplicate, because the code compares an uninitialised string there. The queue bit of a type is not modelled.
- ClientTypes.TypeCache.AddCdtToCache: the array of cached types is a sequence whose new entries are unused, the type is not cached yet, and counts do not wrap at 32 bits. Only upper and lower bounds say which types a fetch with errors adds.
- ClientTypes.TypeCache.CdtGet: the type is not cached yet; the code would add its members a second time.
- ClientSizes.CachedSize: every type has members and every count is at least one, as for `Types.TypeSize`.
- ClientSizes.TypeSizeOf: the same conditions on the types.
- ClientSizes.SizesAgree: the same conditions on the types. The sizes of types with counts below one are not stated; the server stops at an assertion on some of them.
- ClientNames.ClientParse: the same conditions on the types; only compound members are descended into, and positions do not wrap at 32 bits.
- TagBase.Database.TagAdd: slots and index are sequences, new slots start without attributes, and the contents of grown data are a parameter.
- CacheRuns.AlwaysTruthful: does not claim that the cached count or attributes are current; the count may be too small, and the attributes may be those that the client asked for.
- Transfer.TagRead: the byte after the caller's buffer is a parameter.
- Transfer.RoundTrip: what was written is only read back for a bit field below eight; `Transfer.Probe` states where other writes land.
- Transfer.SendMasks: other clients do not write between the messages of one transfer.
- Events.CompareElements: writes start on an element, and REAL values are not compared.
- Events.DeadbandElements: writes start on an element, and DINT, LINT and REAL deadbands are not modelled, because signed overflow has no meaning in C and rounding is not the point.
- EventRuns.SentIffRises: writes start on an element, as for `Events.CompareElements`.
- EventRuns.DriftBelowBand: the event measures rightly, which `Events.DeadbandExact` decides.
- EventRuns.Event.constructor: the private buffer of a BOOL event is as large as its bit offset and count need.
- Atomic.Logic: the range lies inside the tag, because the bounds test of the code counts bits against bytes.
- Atomic.Perform: deleted, virtual and special tags are refused before and are not modelled here.
- Mapping.Server.MapAdd: the destination bits fit a mask of the size of the source, as the code assumes.
- Mapping.Server.MapCheck: destinations are not deleted, and the events of a destination, which react as in `EventRuns.Tag`, are left out.
- TagQueue.TagQueue.Grow: slots that realloc adds are empty.
- TagQueue.Drive: the ring only grows with its oldest item in slot 0; `TagQueue.BreaksFrom` shows that first in, first out fails otherwise.
- TagQueue.TagQueue.Write: the event check after a write is left out.
- Override.Tag.OverrideDel: the range lies inside the tag, because the code does not look.
- Override.Tag.OverrideAdd: the range lies inside the tag, which is not a BOOL tag and does not grow while the override exists.
- ModbusSlave.Node.ReadCoils: what is read fits the 300 bytes that the slave has for it.
- ModbusSlave.ReadBits: counts are positive and the coils fit the local buffer of the slave.
- ModbusSlave.ReadWords: counts are positive and the registers fit the local buffer of the slave.
- ModbusSlave.WriteBits: counts are positive and the data lie inside the request and the local buffer.
- ModbusSlave.WriteWords: counts are positive and the data lie inside the request and the local buffer.
- ModbusSlave.CreateResponse: counts are positive and requests fit the buffers of the slave; padding bits of a coil response are not specified, because the code does not clear them.
- ModbusServer.Connection.Feed: one request is in flight, no select timeout clears the buffer, and unit identifiers are below 248, the size of the node table.
- ModbusMaster.HandleResponse: the data buffer holds at least what the response announces.

# Buffers, events, rate limits, DNS and memory accounting, verified

This project models, in Dafny, the parts of MiniOB's dependencies where the most is at stake in
getting state right, and proves what they promise for all inputs, all runs and, where threads are
involved, all interleavings:

- **evbuffer** (`Chunks`, `ChunkLists`, `Shape`, `Evbuffer`, `Run`, `Move`, `Pullup`, `Expand`,
  `Reserve`, `Search`, `Readln`): a byte queue kept as a singly linked list of partly filled chunks,
  with a cached tail, a cached length and a pointer to the link that leads to the last chunk with
  data. The heap that holds the chunks is a map from addresses to chunks; `last_with_datap` is the
  chunk whose `next` field it points at, or null for `&first`. Every operation refines an operation
  on `seq<byte>`, and says what it leaves alone outside its own chunks.
- **Tagged wire format** (`TagFormat`, `Tagging`): the encoders and decoders as loops over byte
  arrays and evbuffers, against functions on byte sequences.
- **DNS names** (`DnsNames`, `DnsCompression`) and **DNS requests** (`RequestLists`, `RequestTable`,
  `DnsRequests`): parsing and compression of names, and the hash table of circular lists with its
  waiting queue and counters.
- **Rate limiting** (`TokenBucket`, `RateLimit`, `RateGroup`): bucket arithmetic with 64-bit and
  32-bit wrap-around written out, one bufferevent's suspend flags and timer, and the group protocol
  as a state machine of atomic steps in which every try-lock may fail.
- **Event base** (`EventQueues`, `EventEffects`, `EventBase`, `EventLoop`, `EventTiming`,
  `EventMemory`, `EventPriority`): active queues, the active-later queue, timeouts, common-timeout lists and dispatch
  by priority. The time heap is a set with a minimum, and the room in its array is a number. What calls,
  callbacks and rounds do is told as relations between the bases before and after; the callbacks
  started are kept in a ghost trace.
- **Memory tracer** (`MemTracer`): malloc, realloc and free of any number of threads as atomic steps.

`Bytes`, `Addresses`, `Options` and `Lists` hold what they share. State that the program updates in
place is a class whose methods are proved against functions on values; protocols are state machines
with a theorem about every run. Whether an allocation succeeds is a parameter (`mem`), as are the clock,
random numbers, what callbacks do, and which nameserver is picked.

Where the code and its own comments differ, the model follows the code: integers are written least
significant nibble first and tags least significant group first, not big-endian as the format
description in `event_tagging.c` says, and any length byte above 63 in a DNS name is taken for a
pointer, not only those that start with two 1 bits.

Some promises hold only under a condition, which is stated and shown to be needed:

- A name is written within `buf_len` unless its last label fills the buffer to the end (`StaysInside`,
  `FillsTheBuffer`), and is read back whole unless it has an empty label inside (`ReadBackExactly`).
- A reservation of one vector can be committed unless it is put into a spare chunk that is neither the
  first writable one nor the last (`ReserveSpace`, `OneVector`, `RefusedReservation`).
- No common timeout is lost unless the time heap is full and cannot grow when a list needs its timer
  (`NothingLost`, `ScheduleTimer`, `AddKeeps`, `MovedAway`).
- Priority is strict unless a pass over the queues is cut short at priority 0 by a limit of no callbacks
  or by `event_base_loopcontinue` (`StrictPriority`, `PassedOver`).
- A bucket is refilled as intended unless it is above its maximum (`RefillIsNaive`,
  `RefillAboveMaximum`), it takes up all that its rate gives unless it is full (`SpillsNothing`), and no wake-up is lost unless `event_add` fails (`DecrementRead`).
- The tracer's counter is exact unless size + 8 or the counter wraps around (`RoomExact`,
  `FetchAddExact`, `WrapBreaksAccounting`).
- A pointer leads where it should if the position has 14 bits (`PointerTarget`); `FarPointer` is about
  the function alone, as no caller has a buffer that large.

`dafny verify dfyconfig.toml` checks everything.

## Model

| member | source | states |
|---|---|---|
| `Chunks.AllocationSize` | deps/3rd/libevent/buffer.c:156-193 | the size asked for holds the request and its header, stays within the chunk maximum and is less than twice what is needed (or the minimum) |
| `Chunks.Heap.ChainNew` | deps/3rd/libevent/buffer.c:156-193 | a new chunk is empty, large enough and at an unused address, or nothing changes; it fails exactly for want of memory or an oversized request |
| `Chunks.Chunk.Append` | deps/3rd/libevent/buffer.c:1762-1768 | the chunk's bytes become the old ones followed by the new, and the room shrinks by their number |
| `Chunks.Chunk.PrependInPlace` | deps/3rd/libevent/buffer.c:1862-1874 | the chunk's bytes become the new ones followed by the old |
| `Chunks.Chunk.Align` | deps/3rd/libevent/buffer.c:1913-1920 | the bytes are kept and all free room is behind them |
| `Chunks.Chunk.Consume` | deps/3rd/libevent/buffer.c:1148-1153 | exactly the first bytes are gone |
| `Evbuffers.Evbuffer.LastWithData` | deps/3rd/libevent/buffer.c:290-303 | `*last_with_datap` is the last chunk with data, or the first chunk if none has any, and null exactly for an empty list |
| `Evbuffers.Evbuffer.FreeAllChains` | deps/3rd/libevent/buffer.c:255-263 | exactly the chunks of the list are freed |
| `Evbuffers.Evbuffer.FreeTrailingEmptyChains` | deps/3rd/libevent/buffer.c:290-303 | the chunks after the last one with data are freed, the bytes and everything outside the buffer are kept, and the place for a new chunk is returned |
| `Evbuffers.Evbuffer.ChainInsert` | deps/3rd/libevent/buffer.c:308-327 | the chunk's bytes come after those of the buffer; list, tail, length and link are right again |
| `Evbuffers.Evbuffer.ChainToFill` | deps/3rd/libevent/buffer.c:1744-1757 | the chunk to write to is the last one with data, or a new first one; failure changes nothing |
| `Evbuffers.Evbuffer.AddNewChunk` | deps/3rd/libevent/buffer.c:1781-1817 | what does not fit into the last chunk goes to a new one, or nothing changes |
| `Evbuffers.Evbuffer.Add` | deps/3rd/libevent/buffer.c:1729-1824 | on success the bytes are appended; on failure neither a byte nor a field has changed; the conditions that make it succeed |
| `Evbuffers.Evbuffer.PrependToFirst` | deps/3rd/libevent/buffer.c:1858-1910 | what fits goes before the first chunk's bytes, the rest into a new chunk in front; exactly when it fails, and what is left then |
| `Evbuffers.Evbuffer.Prepend` | deps/3rd/libevent/buffer.c:1826-1910 | on success the bytes come first; refused calls change no bytes; when memory runs out, exactly the tail that fitted the first chunk has been stored |
| `Evbuffers.Evbuffer.DrainChunks` | deps/3rd/libevent/buffer.c:1124-1147 | whole chunks are freed from the front; list and link stay right and the bytes left are the suffix |
| `Evbuffers.Evbuffer.Drain` | deps/3rd/libevent/buffer.c:1100-1166 | exactly the first `len` bytes, or all, are gone; it fails exactly when the front is frozen and there are bytes |
| `Evbuffers.Evbuffer.AdvanceLastWithData` | deps/3rd/libevent/buffer.c:703-721 | from a link to the last data chunk of a prefix, the link is moved on to that of the whole list |
| `EvbufferRuns.Step` | deps/3rd/libevent/buffer.c:1100-1910 | one call changes the bytes as it changes a plain sequence, and fails only for a stated reason |
| `EvbufferRuns.Run` | deps/3rd/libevent/buffer.c:1100-2046 | after every run of add, prepend, drain, expand, chunk insertion, freeze and unfreeze, with memory failing at will, the flattened chunks equal the byte queue that the calls and their outcomes describe, all cached fields are right, other chunks are untouched, and every call that failed had an excuse in the state it met: a frozen end, no memory, or a size that cannot be had |
| `EvbufferRuns.AllSucceed` | deps/3rd/libevent/buffer.c:1100-2046 | in a run with memory at hand, nothing frozen and sizes in bounds every call succeeds |
| `EvbufferRuns.CachedFields` | deps/3rd/libevent/buffer.c:290-327 | what validity means on the heap: `last` ends the list reached from `first` by `next`, `total_len` is the number of bytes, and `*last_with_datap` is the last chunk with data, or the first chunk |
| `EvbufferMoves.CopyChain` | deps/3rd/libevent/buffer.c:874-886 | an empty buffer takes over all chunks of the other |
| `EvbufferMoves.AppendChain` | deps/3rd/libevent/buffer.c:888-905 | the chunks of one buffer come after those of the other, the link included |
| `EvbufferMoves.PrependChain` | deps/3rd/libevent/buffer.c:947-963 | the chunks of one buffer come before those of the other, the link included |
| `EvbufferMoves.AddBuffer` | deps/3rd/libevent/buffer.c:965-1009 | all bytes move to the end of the destination, the source is empty, no chunk is in both lists; exactly when it fails, with nothing changed |
| `EvbufferMoves.PrependBuffer` | deps/3rd/libevent/buffer.c:1054-1098 | all bytes move to the front of the destination, the source is empty, no chunk is in both lists |
| `EvbufferMoves.ChunksToMove` | deps/3rd/libevent/buffer.c:1289-1306 | the chunks that can be moved whole, and the link if it was inside them |
| `EvbufferMoves.MoveWholeChunks` | deps/3rd/libevent/buffer.c:1289-1325 | whole chunks change lists: destination and source hold the right prefix and suffix |
| `EvbufferMoves.RemoveBuffer` | deps/3rd/libevent/buffer.c:1259-1347 | the source keeps exactly the suffix and the destination gains exactly the prefix; when a partial chunk cannot be copied for want of memory, exactly that part is lost |
| `EvbufferPullup.Gather` | deps/3rd/libevent/buffer.c:1400-1428 | the copying loop frees whole chunks, keeps the order of bytes and knows whether the chunk holding the link was freed |
| `EvbufferPullup.Pullup` | deps/3rd/libevent/buffer.c:1349-1461 | the bytes are unchanged; on success the first `size` of them, or all of them for a negative size, are contiguous in the first chunk, and `last` and the link are repaired; it fails for size 0, for more than there is and for an empty buffer, succeeds for any other size with memory, and failure changes nothing |
| `EvbufferExpand.CommitSpace` | deps/3rd/libevent/buffer.c:723-791 | on success exactly the committed bytes are appended in order; it succeeds exactly for acceptable vectors on a buffer whose end is not frozen; on failure nothing changes |
| `EvbufferExpand.CheckVecs` | deps/3rd/libevent/buffer.c:745-764 | each vector must be a prefix of the free room of its chunk, in order |
| `EvbufferExpand.OneVector` | deps/3rd/libevent/buffer.c:735-764 | one vector is acceptable to a commit exactly when it starts the free room of the last chunk or of the first writable one |
| `EvbufferExpand.ExpandSinglechain` | deps/3rd/libevent/buffer.c:1938-2046 | the bytes are kept and the returned chunk has the room asked for; it is the first writable chunk, or the spare chunk after it, exactly as the guard of the source says, or the new last one; failure changes nothing |
| `EvbufferExpand.Expand` | deps/3rd/libevent/buffer.c:2160-2169 | the bytes are kept and some chunk has the room |
| `EvbufferReserve.CountSpace` | deps/3rd/libevent/buffer.c:2068-2089 | how much room the last chunks have, and how many are needed |
| `EvbufferReserve.ExpandFast` | deps/3rd/libevent/buffer.c:2050-2158 | the bytes are kept, and on success the last writable chunks, at most `n` of them, have the room together |
| `EvbufferReserve.ReadSetupVecs` | deps/3rd/libevent/buffer.c:2224-2260 | the vectors lie in the writable chunks, in order, within the list, and hold at least the bytes asked for |
| `EvbufferReserve.ReserveSpace` | deps/3rd/libevent/buffer.c:670-701 | for any size and number of vectors: at most `n` vectors with the room asked for, or -1, and the bytes are kept; exactly when an assertion of the code fails, and exactly when a single vector is one that a commit accepts |
| `EvbufferReserve.ReserveThenCommit` | deps/3rd/libevent/buffer.c:670-791 | a reservation that is committed is accepted exactly unless it is a single vector in a spare chunk that is neither the first writable one nor the last; then as many bytes are appended as were asked for, else nothing changes |
| `EvbufferReserve.ReservationCommits` | deps/3rd/libevent/buffer.c:670-791 | an acceptable reservation stays acceptable whatever part of each vector is filled |
| `EvbufferReserve.RefusedReservation` | deps/3rd/libevent/buffer.c:1999-2003 | a buffer of 970 bytes with two spare chunks where the single vector that is handed out is refused by the commit |
| `EvbufferSearch.CopyoutFrom` | deps/3rd/libevent/buffer.c:1189-1254 | exactly the next bytes from the position, or all that are left, however chunks split them; -1 exactly for a frozen front with bytes to copy and for a length that overflows |
| `EvbufferSearch.Copyout` | deps/3rd/libevent/buffer.c:1183-1254 | the first bytes, or -1 exactly when there are any and the front is frozen |
| `EvbufferSearch.Remove` | deps/3rd/libevent/buffer.c:1169-1181 | the bytes taken and the bytes left make up the old contents |
| `EvbufferSearch.PtrMatches` | deps/3rd/libevent/buffer.c:2678-2712 | the comparison succeeds exactly when the pattern occurs there in the flattened bytes |
| `EvbufferSearch.Search` | deps/3rd/libevent/buffer.c:2714-2718 | the least occurrence at or after the start, or not found if there is none; an empty or oversized pattern returns the start |
| `EvbufferSearch.SearchRange` | deps/3rd/libevent/buffer.c:2720-2782 | the least occurrence at or after the start that ends by the end of the range; not found means that every occurrence from the start on goes past that end |
| `EvbufferSearch.FindEolChar` | deps/3rd/libevent/buffer.c:1495-1520 | the first CR or LF, though it is looked for in stretches of 128 bytes |
| `EvbufferSearch.Scan` | deps/3rd/libevent/buffer.c:1473-1542 | the first of the wanted bytes at or after the start, across chunks |
| `EvbufferSearch.Strspn` | deps/3rd/libevent/buffer.c:1544-1581 | the length of the maximal run of the wanted bytes |
| `EvbufferLines.MovePtr` | deps/3rd/libevent/buffer.c:2622-2672 | a position is reached exactly when it is not beyond the end, and lies inside its chunk; what is left of the position on failure |
| `EvbufferLines.PtrSubtract` | deps/3rd/libevent/buffer.c:2602-2620 | going back succeeds exactly when there are that many bytes before |
| `EvbufferLines.SearchEol` | deps/3rd/libevent/buffer.c:1596-1684 | the first line end of the style at or after the start and its length; not found means that there is none |
| `EvbufferLines.NoStopNoTerminator` | deps/3rd/libevent/buffer.c:1596-1684 | before the first stop character no line end starts, except at a CR just before it |
| `EvbufferLines.Readln` | deps/3rd/libevent/buffer.c:1686-1723 | the old contents are line, terminator and new contents, with no earlier terminator; nothing is returned exactly when the front is frozen, memory is out or there is no terminator |
| `EvbufferLines.LineMeans` | deps/3rd/libevent/include/event2/buffer.h:401-421 | what each style makes of a line and its end: which bytes the end consists of, and which do not occur in the line |
| `EvbufferLines.NoEndAt` | deps/3rd/libevent/buffer.c:1594-1682 | where no line end starts there is none of the bytes that would make one |
| `TagFormat.TagRoundTrip` | deps/3rd/libevent/event_tagging.c:177-246 | a 32-bit tag followed by anything is read back, with exactly its bytes |
| `TagFormat.IntRoundTrips` | deps/3rd/libevent/event_tagging.c:121-142 | 32-bit and 64-bit integers followed by anything are read back, with exactly their bytes |
| `TagFormat.HeaderRoundTrip` | deps/3rd/libevent/event_tagging.c:441-455 | the header of a marshalled item is read back and the payload comes next |
| `TagFormat.StreamRoundTrip` | deps/3rd/libevent/event_tagging.c:260-267 | the stream is self-delimiting: any list of items with payloads below 2^31 bytes is read back and trailing bytes are untouched |
| `TagFormat.StreamUnambiguous` | deps/3rd/libevent/event_tagging.c:74-82 | no byte sequence is the stream of two lists of items |
| `TagFormat.EncodedNibble` | deps/3rd/libevent/event_tagging.c:121-142 | the nibbles of an encoded integer: the count less one, the digits least significant first, padding |
| `TagFormat.TagBits` | deps/3rd/libevent/event_tagging.c:201-246 | any accepted tag has seven bits in each byte, least significant first, and the high bit exactly on those that are not the last |
| `TagFormat.IntBits` | deps/3rd/libevent/event_tagging.c:319-352 | any accepted integer: the high half of the first byte is the number of digits less one, its low half the last digit, and in each later byte the low half is the more significant digit...  |
| `TagFormat.IntShortest` | deps/3rd/libevent/event_tagging.c:89-142 | an encoded integer has no leading zero digits |
| `EvbufferTags.EncodeIntInto` | deps/3rd/libevent/event_tagging.c:121-142 | the loop over nibbles writes exactly the encoding, within 5 or 9 bytes |
| `EvbufferTags.EncodeTagInto` | deps/3rd/libevent/event_tagging.c:177-198 | the loop over seven-bit groups writes exactly the encoding, within 5 bytes |
| `EvbufferTags.PutTag` | deps/3rd/libevent/event_tagging.c:177-198 | the encoded tag is appended, or silently nothing when the buffer refuses |
| `EvbufferTags.PutInt` | deps/3rd/libevent/event_tagging.c:156-170 | the encoded integer is appended, or silently nothing |
| `EvbufferTags.Marshal` | deps/3rd/libevent/event_tagging.c:260-267 | tag, length and data are appended; exactly which of the three is missing when memory runs out |
| `EvbufferTags.MarshalInt` | deps/3rd/libevent/event_tagging.c:280-301 | an integer item is appended |
| `EvbufferTags.DecodeTagBytes` | deps/3rd/libevent/event_tagging.c:201-246 | the decoding loop computes the tag of any bytes, at most five of them, and reads a sixth byte exactly when five bytes of a 32-bit tag do not end it and there are more |
| `EvbufferTags.GetTag` | deps/3rd/libevent/event_tagging.c:200-246 | the tag is that of the whole contents though only five bytes are made contiguous, and is drained when asked for |
| `EvbufferTags.DecodeNibbles` | deps/3rd/libevent/event_tagging.c:345-352 | the loop from the last nibble down computes the value |
| `EvbufferTags.DecodeIntAt` | deps/3rd/libevent/event_tagging.c:319-376 | the integer at an offset of any bytes, with every error case, and the contents unchanged; a null pointer is read only at a positive offset when memory is out |
| `EvbufferTags.GetInt` | deps/3rd/libevent/event_tagging.c:379-397 | the integer at the front, drained exactly on success |
| `EvbufferTags.UnmarshalHeader` | deps/3rd/libevent/event_tagging.c:441-455 | length, tag and remaining bytes for any contents, with a length of 2^31 or more turned negative; an error leaves a suffix |
| `EvbufferTags.Unmarshal` | deps/3rd/libevent/event_tagging.c:470-484 | the payload moves to the destination and is drained; what is left is a suffix in every case, and exactly the rest after the header when memory is at hand; a null pointer is copied from only when memory is out |
| `EvbufferTags.UnmarshalInt` | deps/3rd/libevent/event_tagging.c:488-538 | the integer under the wanted tag, for any contents, and what is drained in every error case |
| `EvbufferTags.IntItemRoundTrip` | deps/3rd/libevent/event_tagging.c:280-301 | a marshalled integer comes back under its tag, with exactly its bytes |
| `EvbufferTags.HeaderFits` | deps/3rd/libevent/event_tagging.c:200-376 | whatever arrives, tag and length fit into 32 bits |
| `EvbufferTags.MarshalAll` | deps/3rd/libevent/event_tagging.c:260-267 | the items are appended as their stream |
| `EvbufferTags.UnmarshalAll` | deps/3rd/libevent/event_tagging.c:470-484 | repeated unmarshalling reads the stream as the format says, and fails exactly when it should |
| `EvbufferTags.Transmit` | deps/3rd/libevent/event_tagging.c:260-538 | items marshalled through one buffer and unmarshalled again come back whole, trailing bytes untouched |
| `DnsNames.Labels` | deps/3rd/libevent/evdns.c:976-1030 | on success the end is strictly after the start and within the packet; defined by recursion on jumps left, then bytes left |
| `DnsNames.ParseName` | deps/3rd/libevent/evdns.c:976-1030 | on success the index has advanced to at most the packet length and the name with its terminator fits |
| `DnsNames.NameParse` | deps/3rd/libevent/evdns.c:976-1030 | the loop ends on every packet, pointer loops included, and computes exactly the labels joined by dots, or fails exactly when they do not parse or do not fit |
| `DnsNames.JoinLonger` | deps/3rd/libevent/evdns.c:1006-1017 | a name that does not fit so far does not fit at all |
| `DnsCompression.LabelTable.GetPos` | deps/3rd/libevent/evdns.c:1574-1583 | the position of the first entry with that name, or -1 |
| `DnsCompression.LabelTable.Add` | deps/3rd/libevent/evdns.c:1586-1601 | one entry more, or none when the table is full or memory is out |
| `DnsCompression.PointerTarget` | deps/3rd/libevent/evdns.c:1640-1644 | a pointer leads to its position exactly when that has 14 bits |
| `DnsCompression.NameToLabels` | deps/3rd/libevent/evdns.c:1614-1678 | buffer, table and result are those of the encoding on values, and the final zero is reported when it goes to the byte after the buffer |
| `DnsCompression.StaysInside` | deps/3rd/libevent/evdns.c:1614-1678 | the write ends within `buf_len`, and no byte is stored outside a buffer of that size, exactly unless the last label fills the buffer to its end and no tail of the name is in the table |
| `DnsCompression.FillsTheBuffer` | deps/3rd/libevent/evdns.c:1674 | in a reply buffer of 1500 bytes a name of one byte at 1498 puts its zero at 1500 |
| `DnsCompression.EncodeSpells` | deps/3rd/libevent/evdns.c:1614-1678 | a good name is spelled from its start to the result; bytes before are kept; every pointer leads strictly back to a literal label of a name that ends before it; the table stays sound |
| `DnsCompression.EncodeFits` | deps/3rd/libevent/evdns.c:1614-1678 | with room, a good name is written, in at most its length and two bytes, none of them outside |
| `DnsCompression.EncodeErrors` | deps/3rd/libevent/evdns.c:1604-1678 | -1 only for a label over 63 bytes, -2 only for want of room |
| `DnsCompression.SpellsParses` | deps/3rd/libevent/evdns.c:976-1030 | name_parse reads what is spelled, and its limit on jumps does not get in the way |
| `DnsCompression.SpellsFrame` | deps/3rd/libevent/evdns.c:1614-1678 | later bytes do not disturb a name that is spelled |
| `DnsCompression.JoinSplit` | deps/3rd/libevent/evdns.c:1614-1678 | splitting at the dots and joining again gives the name, without a dot at its end |
| `DnsCompression.NamesSpelled` | deps/3rd/libevent/evdns.c:1614-1678 | names written one after another with one table are all spelled, each ending where the next starts |
| `DnsCompression.NamesRoundTrip` | deps/3rd/libevent/evdns.c:976-1678 | compression round trip: name_parse at each start returns that very name, without a dot at its end, and stops where the next one starts |
| `DnsCompression.ReadBackExactly` | deps/3rd/libevent/evdns.c:976-1678 | a name written without compression is read back whole exactly if it has no empty label before its end |
| `DnsCompression.EncodeStops` | deps/3rd/libevent/evdns.c:1614-1678 | what is written of any C string spells its labels before the first empty one |
| `DnsCompression.NamesFit` | deps/3rd/libevent/evdns.c:1614-1678 | in a buffer with room all names are written |
| `DnsCompression.FarPointer` | deps/3rd/libevent/evdns.c:1640-1644 | the function alone, with a buffer larger than any caller has: an entry at 0x4000 becomes a pointer to 0 |
| `TokenBuckets.RefillIsNaive` | deps/3rd/libevent/bufferevent_ratelim.c:73-111 | the overflow-avoiding refill is min(limit + ticks * rate, maximum) exactly when the limit is not above the maximum or its excess wraps to no more than the ticks are worth |
| `TokenBuckets.RefillAboveMaximum` | deps/3rd/libevent/bufferevent_ratelim.c:91-105 | a bucket above its maximum is not clipped |
| `TokenBuckets.UpdateKeeps` | deps/3rd/libevent/bufferevent_ratelim.c:73-111 | an update keeps the limit in range, takes nothing away, leaves a positive limit positive and is the naive refill of the ticks passed |
| `TokenBuckets.Growth` | deps/3rd/libevent/bufferevent_ratelim.c:73-111 | what an update would give grows by at most the rate per tick, across tick wrap-around and ignored updates |
| `TokenBuckets.Conserved` | deps/3rd/libevent/bufferevent_ratelim.c:197-308 | bytes transferred never exceed what the bucket would have held at the start and what the time since has added |
| `TokenBuckets.RunBound` | deps/3rd/libevent/bufferevent_ratelim.c:73-308 | over any T ticks a bufferevent limited by its own configuration transfers at most maximum + T * rate bytes |
| `TokenBuckets.UpdatedTwice` | deps/3rd/libevent/bufferevent_ratelim.c:73-111 | updating at tick t and then at t' gives the original limit plus rate times all ticks since the last update before, clipped once: no tick is lost or counted twice |
| `TokenBuckets.Balance` | deps/3rd/libevent/bufferevent_ratelim.c:73-308 | conservation, exactly: bytes transferred, what is left and what a full bucket could not take up are together what there was and rate times the ticks passed, over any run of turns no more than INT_MAX ticks apart |
| `TokenBuckets.SpillsNothing` | deps/3rd/libevent/bufferevent_ratelim.c:91-105 | nothing is clipped exactly when no turn finds start + rate * ticks - transferred above the maximum |
| `TokenBuckets.FullRate` | deps/3rd/libevent/bufferevent_ratelim.c:73-308 | a bucket that never overflows: limit plus bytes transferred is exactly the start plus the rate per tick |
| `RateLimits.Bufferevent.SuspendRead` | deps/3rd/libevent/bufferevent.c:66-75 | the reason is added, and the backend is not armed |
| `RateLimits.Bufferevent.UnsuspendRead` | deps/3rd/libevent/bufferevent.c:77-86 | the reason is gone; the backend is armed only if nothing else suspends or disables it, and then it is, if event_add succeeds |
| `RateLimits.Bufferevent.SuspendWrite` | deps/3rd/libevent/bufferevent.c:88-97 | the reason is added, and the backend is armed only to connect |
| `RateLimits.Bufferevent.UnsuspendWrite` | deps/3rd/libevent/bufferevent.c:99-108 | the reason is gone; the backend is armed only if nothing else suspends or disables writing, and then it is, if event_add succeeds |
| `RateLimits.Bufferevent.Enable` | deps/3rd/libevent/bufferevent.c:481-503 | the enabled directions grow, what is neither suspended nor failing is armed, and -1 exactly when an event_add that was needed fails |
| `RateLimits.Bufferevent.Disable` | deps/3rd/libevent/bufferevent.c:572-587 | the enabled directions shrink, and nothing that is disabled stays armed but to connect |
| `RateLimits.Bufferevent.OutputChanged` | deps/3rd/libevent/bufferevent_sock.c:128-147 | the backend that starts and stops writing by itself does not break the rule that a suspended or disabled direction is not armed |
| `RateLimits.Bufferevent.Connected` | deps/3rd/libevent/bufferevent_sock.c:250-284 | once connected, writing goes on only if it is enabled and not suspended |
| `RateLimits.Bufferevent.UpdateBucket` | deps/3rd/libevent/bufferevent_ratelim.c:73-126 | exactly when 1 to INT_MAX ticks have passed, modulo 2^32, both directions become min(limit + ticks * rate, maximum) and the time stamp the tick given; otherwise nothing changes; the limits stay in range |
| `RateLimits.Bufferevent.GetMax` | deps/3rd/libevent/bufferevent_ratelim.c:197-258 | the maximum is the refilled limit or the single maximum, at most the share of the group and at least 0; a suspended group suspends its member; no wake-up is lost |
| `RateLimits.ShareDivides` | deps/3rd/libevent/bufferevent_ratelim.c:219-247 | the shares of all members together are the group's limit, up to less than one byte each, or each is the minimal share |
| `RateLimits.Bufferevent.DecrementRead` | deps/3rd/libevent/bufferevent_ratelim.c:272-308 | the direction is suspended for bandwidth exactly when the bucket is at or below zero; the timer runs exactly when a direction is, unless event_add fails, which is reported; the limit is in range exactly if bytes given back do not lift it above the maximum |
| `RateLimits.Bufferevent.DecrementWrite` | deps/3rd/libevent/bufferevent_ratelim.c:310-346 | the same for writing |
| `RateLimits.Bufferevent.RefillCallback` | deps/3rd/libevent/bufferevent_ratelim.c:393-439 | after the timer has fired, a direction is suspended exactly when its bucket is still exhausted, and then the timer runs again, unless event_add fails, which goes unnoticed |
| `RateLimits.Bufferevent.InitBucket` | deps/3rd/libevent/bufferevent_ratelim.c:49-71 | a new bucket starts at its rate; a new configuration only clips downwards |
| `RateLimits.Bufferevent.SetRateLimit` | deps/3rd/libevent/bufferevent_ratelim.c:559-635 | a first configuration starts the bucket at its rate and at the tick given; another one only clips the limits and leaves the time stamp; a direction is suspended for bandwidth exactly when its limit is then not positive, and the timer follows; removing the configuration removes both; the same configuration, or a record that cannot be allocated, changes nothing |
| `RateLimits.RunOps` | deps/3rd/libevent/bufferevent_ratelim.c:272-635 | in every run, with event_add failing at will, each operation has its effect on flags, limits and timer, a direction that is suspended or disabled is not armed, an exhausted bucket suspends its direction and limits stay in range; and as long as event_add succeeds, no wake-up is lost and reading goes on when it should |
| `RateGroups.MembershipStep` | deps/3rd/libevent/bufferevent_ratelim.c:734-807 | joining and leaving, with their gaps outside the group lock, keep the invariant |
| `RateGroups.GroupStep` | deps/3rd/libevent/bufferevent_ratelim.c:228-253 | limit checks, exhaustion, refunds and refill ticks keep the invariant |
| `RateGroups.WalkStep` | deps/3rd/libevent/bufferevent_ratelim.c:349-371 | each try-lock of a suspending or unsuspending walk, successful or not, keeps the invariant |
| `RateGroups.RunInv` | deps/3rd/libevent/bufferevent_ratelim.c:349-557 | every interleaving keeps the invariant |
| `RateGroups.NoneStranded` | deps/3rd/libevent/bufferevent_ratelim.c:349-557 | after every interleaving a flagged member of a group that is not suspended means that an unsuspend is pending |
| `RateGroups.EmptySuspends` | deps/3rd/libevent/bufferevent_ratelim.c:349-371 | an exhausted bucket suspends the group, and after the walk, with any locks taken, exactly the members flagged before and those whose lock was free are flagged |
| `RateGroups.TickResumes` | deps/3rd/libevent/bufferevent_ratelim.c:487-557 | what ends a suspension, with any locks taken: the group is not suspended, exactly the members whose lock was free have lost their flag, and an unsuspend is pending exactly when some lock was not free |
| `RateGroups.TickWaits` | deps/3rd/libevent/bufferevent_ratelim.c:536-547 | with nothing pending a tick changes nothing unless the group is suspended and there is enough in the bucket |
| `RateGroups.MemberFollows` | deps/3rd/libevent/bufferevent_ratelim.c:228-253 | a bufferevent that joins is flagged exactly if the group is suspended, one that leaves is not flagged, and a limit check flags a member of a suspended group |
| `RateGroups.TickClears` | deps/3rd/libevent/bufferevent_ratelim.c:528-557 | a tick that finds enough in the bucket of a suspended group, a tick with an unsuspend pending, and bytes given back, with the locks free: the group is not suspended, no member is flagged and nothing is pending |
| `RateGroups.RandomWalk` | deps/3rd/libevent/bufferevent_ratelim.c:445-485 | the random-order walk visits every member exactly once, beginning with the one picked |
| `EventQueues.InsertActiveAgrees` | deps/3rd/libevent/event.c:3376-3395 | queues, flags and counters agree after the insertion |
| `EventQueues.RemoveActiveAgrees` | deps/3rd/libevent/event.c:3235-3250 | queues, flags and counters agree after the removal |
| `EventQueues.InsertLaterAgrees` | deps/3rd/libevent/event.c:3397-3412 | queues, flags and counters agree after the insertion |
| `EventQueues.RemoveLaterAgrees` | deps/3rd/libevent/event.c:3251-3265 | queues, flags and counters agree after the removal |
| `EventQueues.InsertedAgrees` | deps/3rd/libevent/event.c:3223-3234 | queues, flags and counters agree after the change |
| `EventQueues.InsertTimeoutAgrees` | deps/3rd/libevent/event.c:3414-3436 | queues, flags and counters agree after the insertion in heap or list |
| `EventQueues.RemoveTimeoutAgrees` | deps/3rd/libevent/event.c:3266-3286 | queues, flags and counters agree after the removal from heap or list |
| `EventQueues.PromotedAgrees` | deps/3rd/libevent/event.c:3438-3451 | queues, flags and counters agree after an active-later event becomes active |
| `EventQueues.InOrderSorted` | deps/3rd/libevent/event.c:3331-3358 | the list stays sorted, and only the new event can come before the one that was first |
| `EventQueues.PromotedInOrder` | deps/3rd/libevent/event.c:3438-3451 | each active queue gains at its end the later events of its priority, in their order |
| `EventQueues.RequeuedInOrder` | deps/3rd/libevent/event.c:3180-3204 | events that were not active come to be behind those that were, in the order in which they fire |
| `EventQueues.RescheduledNoneLost` | deps/3rd/libevent/event.c:2666-2742 | re-adding a timeout leaves at most the list that the event now heads in need of its timer |
| `EventQueues.TimerRescheduled` | deps/3rd/libevent/event.c:1449-1456 | setting a list's timer for its first event makes the list ready, also when the timer's callback is running |
| `EventQueues.DeletedNoneLost` | deps/3rd/libevent/event.c:2809-2898 | deleting an event loses no common timeout |
| `EventQueues.ExpiredNoneLost` | deps/3rd/libevent/event.c:3193-3203 | an expired event or timer leaves its list ready |
| `EventBases.EventBase.EventAssign` | deps/3rd/libevent/event.c:2112-2161 | a new event of middle priority is on no queue; refused exactly for a signal event that also waits for a descriptor |
| `EventBases.EventBase.EventPrioritySet` | deps/3rd/libevent/event.c:2355-2368 | the priority changes exactly when the event is not active and there is such a priority, and no queue is affected |
| `EventBases.EventBase.InitCommonTimeout` | deps/3rd/libevent/event.c:1486-1558 | one list per duration, at most 256, each with its own internal timer; -1 exactly when there is none for the duration and it cannot be made |
| `EventBases.EventBase.InsertInOrder` | deps/3rd/libevent/event.c:3331-3358 | the search from the end finds the place after the last event that is not later, and before only later ones |
| `EventBases.EventBase.EventAdd` | deps/3rd/libevent/event.c:2596-2766 | -1 exactly when the time heap is full and cannot grow or the evmap fails, with nothing changed but the room in the heap; else the event is inserted, its timeout is `now` plus the interval, or the time itself if absolute, the interval of a persistent event is remembered, one that a timeout had made active is so no longer, and the list it heads has its timer set or is given up, exactly as room and memory have it; other events are as before, and all invariants are kept |
| `EventBases.EventBase.EventDel` | deps/3rd/libevent/event.c:2809-2898 | the event is on no queue and has no flag, all else is as before, no common timeout is lost, and the result is that of the evmap |
| `EventBases.EventBase.EventActive` | deps/3rd/libevent/event.c:2918-2967 | the event is at the end of its queue unless it was active, what it is active for is added to that of an event still active, all else is as before, and a more urgent event is noticed |
| `EventBases.EventBase.EventActiveLater` | deps/3rd/libevent/event.c:2977-2992 | the event is at the end of the active-later queue unless it is active or there already, and all else is as before |
| `EventBases.EventBase.MakeLaterEventsActive` | deps/3rd/libevent/event.c:3438-3451 | the events that were left for later are appended to their active queues in order, and all else is as before |
| `EventBases.EventBase.TimeoutProcess` | deps/3rd/libevent/event.c:3180-3204 | exactly the events that are due leave the heap, they are active at the end of their queues in order of their times, and all other events are as before |
| `EventBases.EventBase.ScheduleTimer` | deps/3rd/libevent/event.c:1449-1456 | the list is ready exactly if its timer is in the heap, or fits into it, or has fired; all else is as before |
| `EventBases.EventBase.CommonTimeoutCallback` | deps/3rd/libevent/event.c:1461-1482 | the events of the list that are due are active, in order, the others stay and are as before; the timer is set again for the rest, and if it does not fit the list is given up; when the callback ends no list depends on its running any more |
| `EventBases.EventBase.PersistClosure` | deps/3rd/libevent/event.c:1561-1624 | a persistent event with an interval is due again at the interval after it was due, or after now if it fired for another reason or has missed a run; all invariants are kept |
| `EventTimings.AddAndWait` | deps/3rd/libevent/event.c:2596-2766 | event_add and then timeout_process at time t: a relative timeout added at `now` has fired exactly if t >= now + interval, an absolute one exactly if t is not before it; until then the event waits in the heap and is not made active |
| `EventTimings.ListedFiresWhenDue` | deps/3rd/libevent/event.c:1461-1482 | the same for an event on a common-timeout list, in the callback of the list's timer |
| `EventTimings.FiresWhenDue` | deps/3rd/libevent/event.c:3180-3204 | an event in the heap fires exactly when its time has come |
| `EventTimings.AddAndRepeat` | deps/3rd/libevent/event.c:1561-1624 | a persistent event added at `now` fires, is run at u and is due again at now + 2 * interval, or at u + interval if that has passed |
| `EventBases.EventBase.DispatchFirst` | deps/3rd/libevent/event.c:1644-1733 | the first event of the queue, and no other, is started and recorded; the base afterwards is that before with the event taken off, rescheduled, the script performed, the common timeouts of a timer expired and what others do then performed, and no more urgent event goes unnoticed |
| `EventBases.EventBase.ProcessSingleQueue` | deps/3rd/libevent/event.c:1633-1751 | the callbacks started are recorded, each found the base as the one before left it, and was the first of the queue while nothing more urgent was active, unless event_base_loopcontinue is called; none follows one after which event_base_loopbreak or event_base_loopcontinue has been called, nor are there more than the limit; the result counts those that are not internal, or is -1 after event_base_loopbreak; why it stops |
| `EventBases.EventBase.ProcessActive` | deps/3rd/libevent/event.c:1759-1802 | strict priority: the first callback is the first of the most urgent queue, and all are, unless the pass is cut short at priority 0; none follows event_base_loopbreak, and after event_base_loopcontinue only less urgent ones; exactly how a pass moves on |
| `EventLoops.LoopOnce` | deps/3rd/libevent/event.c:1957-2009 | one round: later events become active, the poll is performed, due timeouts expire, and if any event is active callbacks are started, with all invariants at each of these points, and strict priority |
| `EventLoops.LoopRounds` | deps/3rd/libevent/event.c:1922-2023 | a loop runs its rounds one after the other; it begins none after event_base_loopbreak nor, if it is to exit then, when no event of the program is on any queue, and it ends early for no other reason |
| `EventLoops.Run` | deps/3rd/libevent/event.c:1922-2023 | in every run, with memory failing at will, each call, round and callback has its effect on the base that the one before left; before and after each of them queues, flags and counters agree and no common timeout is lost but those of lists given up; and no callback was started while a more urgent one was active, unless a pass was cut short |
| `EventEffects.StrictPriority` | deps/3rd/libevent/event.c:1753-1802 | strict priority of every callback follows from the steps of a run in which no pass can be cut short |
| `EventEffects.CountersIdle` | deps/3rd/libevent/event.c:1345-1349 | the two counters are zero exactly if no event of the program is on any queue |
| `EventPriorities.DueListFires` | deps/3rd/libevent/event.c:1449-1482 | an event on a common-timeout list that is due and was not given up finds the list's timer active once timeouts are processed |
| `EventPriorities.PassedOver` | deps/3rd/libevent/event.c:1733-1797 | with a limit of no callbacks, or after event_base_loopcontinue, an event of priority 1 is run while an internal one of priority 0 is active |
| `EventMemory.NothingLost` | deps/3rd/libevent/event.c:2596-2766 | over every run in which memory for the time heap can be had, no list is given up and no event goes astray |
| `EventMemory.AddKeeps` | deps/3rd/libevent/event.c:2622-2742 | event_add gives no list up and lets no event go astray if memory can be had, or if the event was not waiting for a timeout |
| `EventMemory.MovedAway` | deps/3rd/libevent/event.c:1449-1456 | with a full heap that cannot grow, an event that is moved from one list to another leaves that list without its timer, and one that is moved to a timeout of its own is in no queue; event_add succeeds in both cases |
| `RequestLists.InsertCircle` | deps/3rd/libevent/evdns.c:2753-2768 | the request becomes the last of the circle, and only links in it change |
| `RequestLists.UnlinkCircle` | deps/3rd/libevent/evdns.c:2715-2751 | the others stay in a circle in their order, with the right head, and only links in it change |
| `RequestTables.InBucketOk` | deps/3rd/libevent/evdns.c:2857-2875 | every linked request is in exactly one circle after an insertion |
| `RequestTables.OutOfBucketOk` | deps/3rd/libevent/evdns.c:2715-2751 | every linked request is in exactly one circle after a removal |
| `RequestTables.FlyingListed` | deps/3rd/libevent/evdns.c:472-487 | the requests in flight are exactly those in the bucket of their transaction id |
| `RequestTables.OutOfBucketCounts` | deps/3rd/libevent/evdns.c:652-710 | a removal takes one from the total and one from the request's server |
| `RequestTables.SwapCounts` | deps/3rd/libevent/evdns.c:548-557 | a swap takes one from the old server and gives one to the new |
| `DnsRequests.RequestBase.InsertRequest` | deps/3rd/libevent/evdns.c:2753-2768 | the links and the head are those of the insertion |
| `DnsRequests.RequestBase.RemoveRequest` | deps/3rd/libevent/evdns.c:2715-2751 | the links and the head are those of the removal |
| `DnsRequests.RequestBase.Submit` | deps/3rd/libevent/evdns.c:2857-2875 | the set in flight or the waiting queue gains exactly the request, and the counters agree |
| `DnsRequests.RequestBase.Resolve` | deps/3rd/libevent/evdns.c:2779-2875 | a new request is issued at once exactly if there is room for it and a server, and waits at the end of the queue otherwise |
| `DnsRequests.RequestBase.Find` | deps/3rd/libevent/evdns.c:472-487 | a request is found exactly when some request in flight has that id |
| `DnsRequests.RequestBase.SwapNs` | deps/3rd/libevent/evdns.c:548-557 | the server of that request is the new one, if there is one, all else is as before, and the servers' counters agree |
| `DnsRequests.RequestBase.Pump` | deps/3rd/libevent/evdns.c:746-774 | requests go into flight in order of arrival, each with the server and the id picked for it, exactly until there is no room, no server or no request; all others keep theirs |
| `DnsRequests.RequestBase.Finish` | deps/3rd/libevent/evdns.c:652-710 | the request is gone from its list and the set, the counters agree, and waiting ones take its place in order |
| `DnsRequests.RequestBase.Cancel` | deps/3rd/libevent/evdns.c:2878-2911 | the request is gone from flight or queue, the others are as they were, and waiting ones take its place in order |
| `DnsRequests.RequestBase.SetMaxInflight` | deps/3rd/libevent/evdns.c:3425-3454 | the same requests, servers and counters in a table of the new size; failure changes nothing |
| `DnsRequests.Narrowed` | deps/3rd/libevent/evdns.c:3439-3450 | once the old lists are empty, the new lists are a table in order with the same totals |
| `DnsRequests.Run` | deps/3rd/libevent/evdns.c:472-3454 | in every run the table, its set of requests and its counters agree, and each operation has its effect on the requests in flight, with their servers and ids, and on the queue |
| `DnsRequests.RunWithinLimit` | deps/3rd/libevent/evdns.c:746-774 | over a whole run in which the limit is not lowered, no more requests are in flight than it allows |
| `MemTracing.RoomExact` | deps/memtracer/allocator.cpp:31-41 | a block is as large as its header says exactly when size + 8 does not wrap around |
| `MemTracing.CallStep` | deps/memtracer/allocator.cpp:31-85 | calls keep the invariant, which has the size asked for in every later step of the call |
| `MemTracing.FetchAddStep` | deps/memtracer/memtracer.cpp:114-124 | counting a block keeps the counter exact and passed blocks within the limit, also when the process is about to exit |
| `MemTracing.FetchAddExact` | deps/memtracer/memtracer.cpp:114-117 | counting a block keeps the counter exact if and only if the addition does not wrap around |
| `MemTracing.FetchSubStep` | deps/memtracer/memtracer.cpp:126-130 | uncounting a block keeps the counter exact |
| `MemTracing.MemcpyStep` | deps/memtracer/allocator.cpp:57-76 | the copy in realloc puts the old contents at the start of the new block |
| `MemTracing.RunInv` | deps/memtracer/allocator.cpp:31-85 | every interleaving keeps the invariant |
| `MemTracing.Accounting` | deps/memtracer/memtracer.cpp:114-130 | over every interleaving the counter is the base amount and all counted blocks, and what callers hold stays within the limit |
| `MemTracing.MallocReturns` | deps/memtracer/allocator.cpp:31-41 | over every interleaving malloc returns a new live block of exactly the size asked for |
| `MemTracing.ReallocReturns` | deps/memtracer/allocator.cpp:57-75 | over every interleaving realloc returns a live block of at least the size asked for: the old one, unchanged, exactly if its header is large enough, else a new one of exactly that size that starts with the old contents, and the old one is freed |
| `MemTracing.FreeFrees` | deps/memtracer/allocator.cpp:77-85 | over every interleaving a call to free that is over has freed its block and taken it off the count |
| `MemTracing.ReallocFails` | deps/memtracer/allocator.cpp:63-67 | a realloc that gets no memory leaves the old block with the program, unchanged |
| `MemTracing.ExitsAboveLimit` | deps/memtracer/memtracer.cpp:114-124 | a thread exits exactly when the block it counts takes the counter above the limit |
| `MemTracing.WrapBreaksAccounting` | deps/memtracer/allocator.cpp:31-41 | for a size that wraps around both fail |

## Left out

- Pinned, multicast, referenced and file-backed chunks, file segments and sendfile: they need an ownership model of their own.
- Evbuffer callbacks and the counters that feed them (`n_add_for_cb`, `n_del_for_cb`), and the locks of a single buffer: all calls on one buffer are serialised by its lock.
- Reading from and writing to sockets, `evbuffer_peek`, `evbuffer_add_iovec` and `evbuffer_add_printf`: foreign calls, or easy compositions of what is modelled.
- Lengths of more than `INT_MAX` returned as `int` by `evbuffer_copyout` and `evbuffer_remove_buffer`: results are unbounded integers here, and `total_len` is not wrapped in `evbuffer_add_buffer`.
- EvbufferTags.DecodeTagBytes: the sixth byte that the code may read is reported, not read; its value makes no difference.
- DnsCompression.NameToLabels: the byte after the buffer is reported, not stored.
- `evtag_marshal_timeval`, strings, fixed-length items and `evtag_marshal_buffer`: compositions of the modelled calls.
- DnsCompression.NamesRoundTrip: buffers of at most 0x4000 bytes, where `evdns.c` has 1500, and names with no empty label before their end (see ReadBackExactly).
- The rest of evdns: packets other than names, timeouts, search domains, nameserver health, transmission. Choosing unused transaction ids is a parameter of the pump.
- TokenBuckets.RunBound: one direction at a time, and ticks that do not run backwards.
- RateLimits.RunOps: bytes given back may not lift a bucket above its maximum, since the refill does not clip it then (see RefillAboveMaximum); a failed connection, which takes the read event away, is not among the operations.
- RateLimits.Bufferevent.DecrementRead: the group's part of the call is a step of the group protocol.
- RateGroups.RunInv: one direction; shares of the group's bucket (`min_share`) only decide when a tick unsuspends, which is left open.
- Deferred callbacks: `event_callback` records that are not events and are activated without a notice to a running dispatch; what is proved of priority is about events.
- Finalising events and signals with repeated calls: they would add cases but no harder property.
- EventBases.EventBase.EventAdd: an event that moves from a common-timeout list to a heap that cannot take it is reported (`strayed`); what the code does with it later depends on stale bytes, and the model goes on as if there had been room.
- EventEffects.StrictPriority: that no pass can be cut short is sufficient; whether one that is cut short passes a callback over depends on what is active then (see PassedOver).
- mmap and munmap accounting, the early calloc buffer and the count of metadata in the tracer: lengths there are chosen by the caller or approximate.
- MemTracing.Accounting: the base amount and the limit are set before the first call, and freed addresses are not reused.
- MiniOB's own storage, SQL and transaction code is not part of this model.

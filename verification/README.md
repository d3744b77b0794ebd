# nghttp2 in Dafny

A model of the parts of nghttp2's library layer (`lib/`) that carry state over a connection, with
proofs about every run of them. `dafny verify dfyconfig.toml` checks the whole project.

- **Header compression.** Prefix integers, the Huffman code with its chunked buffers, the dynamic table
  (ring buffer, hash chains, sequence numbers, eviction), the deflater object, the inflater object, and
  the two joined: whatever blocks and SETTINGS frames come, both ends stay in step.
- **Stream priorities.** The binary heap, the virtual time of siblings with its wrap-around order and the
  heap they are queued in, weighted fairness of every run, the linked dependency tree, the scheduler over
  it, and streams that have both pointers and queues.
- **Flow control.** The ledger of the receiving window.
- **Framing, messages, lookup.** HEADERS/PUSH_PROMISE with CONTINUATION from one end to the other, the HTTP
  message rules over whole requests and responses, and the hash table of streams.

## How it is built

| files | what they hold |
|---|---|
| `Bytes`, `HpackInteger` | octets and powers of two; integers with a prefix, written, read, cut and resumed |
| `Huffman`, `Bufs`, `HuffmanEncode` | the code as bit strings and the nibble automaton; the chain of buffers; the encoder that ORs codes into the buffers by its slow and its fast path |
| `HpackTable`, `Hpack` | eviction and the ring buffer; what a header block is, as octets and as a change of the table |
| `Deflater`, `DeflateBound` | the encoder object, with its table in the ring buffer, which writes exactly those octets; the bound on their number |
| `Indexing` | which fields the encoder puts into the table, by their names, over whole runs |
| `Inflate`, `Inflater` | the decoder as a machine that reads one octet at a time; the decoder object, whose loop reads integers and strings in bulk |
| `Reading` | what any sequence of representations means, and that the machine means that |
| `HpackSync`, `HpackEnds` | the machine on the octets of the encoder, over runs of blocks and SETTINGS frames; the two objects joined |
| `Pq` | the heap as a sequence; the heap object with its array and back-indices, which computes the same |
| `VirtualTime`, `SiblingRuns`, `ZeroedRuns`, `Fairness` | the cycles of the children of one stream in 64-bit words and in exact integers; every run of events on them and on their heap; runs after a last cycle has been set to zero; what each child is charged |
| `DepForest`, `DepLinks`, `DepTree` | the dependency tree and its edits; the four pointers that show it; the object with the pointer operations |
| `SchedState`, `SchedSelect`, `SchedRequeue`, `SchedFair`, `SchedEdit`, `SchedTree`, `Scheduler` | which streams are queued, in the heap of their parent; the next item; rescheduling; fairness in the whole tree; moving children and queues; the scheduler object |
| `PriorityTree` | the tree object and the scheduler object changed together |
| `HeaderFrames`, `HeaderExchange` | frames of a header block, packed; both ends joined through the frames |
| `HttpMessaging`, `HttpRuns` | the message rules for one header block; every run from the first block to END_STREAM |
| `FlowControl`, `HashTable` | window ledger; chained hash table |

The pattern is the same throughout. A simple description of an operation is a function or a predicate on
values; the class or method that has the source's own fields, branches and loops is proved to do what the
description says; and what the library is for is proved about the description, for every input and run.

The static table, the Huffman code with its automaton, `lookup_token` and the character tables are
parameters. `Hpack.WfStatics`, `Huffman.WellFormed` and `HpackInflate.WfTables` say what is used of them:
equal names are contiguous and a token is the first index; the code is prefix-free with 5 to 30 bits and an
end-of-string code of ones; the automaton follows the code tree. `HpackIndexing.Named` adds the ten names that
the choice of indexing looks at.

### Where the code does not do what one would like

- `nghttp2_hd_deflate_bound` allows 12 octets for each field, which leaves none for the opcode of a literal
  with a new name and two strings of at least 2^28 + 127 octets that are not Huffman coded
  (`HpackBound.FieldLength`). Without such a field it is a bound in every state (`HpackBound.BlockLength`);
  for one field it is a bound in every state exactly if the caller can see that the field is not one
  (`HpackBound.BoundExactly`). `HpackBound.OverrunExists` gives one that is an octet over.
- `stream_obq_remove` sets the last cycle of the removed stream to zero, so `nghttp2_stream_dep_remove_subtree`
  of a stream with queued children can take their cycles out of the window.
  `ZeroedRuns.ZeroedOrderFails` gives a run after which two children are neither before nor after each
  other. The heap is then in no order, and does not get it back when the cycles return to the window:
  `ZeroedRuns.FrontNotFirst` gives a run after which all cycles are in the window and the child at the front
  of the heap is not the first, so that selecting it takes another child out of the window. At the latest
  an empty queue is in order again (`SchedState.EmptyFits`). `Scheduler.Scheduler.RemoveSubtree` states
  exactly when window and heap order survive: if the stream was not queued, or if every cycle in its queue
  is safe from zero; so always if it has no queued child. `Scheduler.Scheduler.Reprioritize` states it for a
  stream that moves, in both directions: what stays in its queue must be safe from zero, and, if the new
  parent was below it and keeps its children, the queue of the new parent. `Scheduler.IdleIsSafe`: so it is
  if no stream below the one that moves is active.
- `nghttp2_stream_change_weight` recovers the pending penalty of the last schedule exactly when it was below
  the old weight (`VirtualTime.RecoveredExactly`); otherwise it recovers the remainder.
- The inflater accepts strings of at most 65536 octets as they are coded, not as they are decoded:
  `HpackSync.BlockAccepted` states which blocks of the encoder it takes.

## Model

| member | source | states |
|---|---|---|
| `HpackInteger.CountEncodedLength` | lib/nghttp2_hd.c:789-804 | The count is the number of octets the encoding has, whatever the first octet. |
| `HpackInteger.EncodeLength` | lib/nghttp2_hd.c:806-829 | The loop writes the prefix integer of section 5.1 of RFC 7541. |
| `HpackInteger.EncodeLayout` | lib/nghttp2_hd.c:806-829 | The octets have the format of section 5.1 of RFC 7541: high bits kept, the number in the prefix, or the all-ones prefix plus seven bits per octet with a continuation bit on all but the last. |
| `HpackInteger.EncodedSizeFits` | lib/nghttp2_hd.c:912-938 | Every 64-bit size fits the 16-octet scratch buffers of the emit functions. |
| `HpackInteger.DecodeLength` | lib/nghttp2_hd.c:848-910 | The bulk loop with its saved value and shift gives the result of reading one octet at a time, with the same overflow verdicts. |
| `HpackInteger.DecodeIntChunks` | lib/nghttp2_hd.c:848-910 | Cutting the input anywhere and resuming with the saved value and shift changes neither value, nor consumed length, nor error. |
| `HpackInteger.IntegerRoundTrip` | lib/nghttp2_hd.c:789-910 | Reading a written 32-bit integer gives it back and consumes exactly its octets, whatever follows. |
| `HpackInteger.IntegerTooLarge` | lib/nghttp2_hd.c:848-910 | An encoding of more than 32 bits is refused, whatever follows it. |
| `Huffman.EncodeCount` | lib/nghttp2_hd_huffman.c:141-150 | The count is the length of the Huffman form. |
| `Huffman.EncodingUnique` | lib/nghttp2_hd_huffman.c:152-191 | A string has one Huffman form: code bits followed by fewer than eight ones. |
| `Huffman.HuffDecode` | lib/nghttp2_hd_huffman.c:198-231 | One chunk through the nibble automaton appends what the automaton emits, fails in its failure state, and on the final chunk fails unless the state accepts; at most two octets are added per octet read. |
| `Huffman.Decode` | lib/nghttp2_hd.c:2014-2051 | The output has at most twice the length of the input, which the 2 * left + 1 buffers rely on. |
| `Huffman.DecodeChunks` | lib/nghttp2_hd_huffman.c:198-231 | Cutting the input of the decoder anywhere changes neither output nor state nor verdict. |
| `Huffman.DecodeSound` | lib/nghttp2_hd_huffman.c:198-231 | After any input the output and the state are the two parts of the parse of the bits by the code, and failure means the bits cannot be continued to a parse. |
| `Huffman.HuffmanRoundTrip` | lib/nghttp2_hd_huffman.c:152-231 | Decoding the Huffman form of a string gives the string, in an accepting state. |
| `Huffman.HuffmanDecodeExact` | lib/nghttp2_hd_huffman.c:198-231 | What the decoder accepts is the Huffman form of what it returns, padding included. |
| `Buffers.Bufs.constructor` | lib/nghttp2_buf.c:125-154 | A fresh chain is empty and has room for all its chunks less their offsets. |
| `Buffers.Bufs.Wrap` | lib/nghttp2_buf.c:200-225 | One supplied buffer that cannot grow. |
| `Buffers.Bufs.AllocChain` | lib/nghttp2_buf.c:301-331 | A new current chunk exactly if there is room beyond the current one; the contents stay. |
| `Buffers.Bufs.Add` | lib/nghttp2_buf.c:333-359 | Succeeds exactly if the data fits, and then appends all of it however it is cut into chunks. |
| `Buffers.Bufs.EnsureAddB` | lib/nghttp2_buf.c:361-377 | There is room for an octet exactly if there is any room at all. |
| `Buffers.Bufs.AddB` | lib/nghttp2_buf.c:379-390 | Appends one octet exactly if there is room. |
| `Buffers.Bufs.AddBHold` | lib/nghttp2_buf.c:392-403 | Puts one octet at the write position without counting it. |
| `Buffers.Bufs.FastOrB` | lib/nghttp2_buf.h:325-330 | ORs into the held octet and counts it. |
| `Buffers.Bufs.FastOrBHold` | lib/nghttp2_buf.h:332-336 | ORs into the held octet without counting it. |
| `Buffers.Bufs.RemoveCopy` | lib/nghttp2_buf.c:466-482 | The chunks joined in order are the contents. |
| `HuffmanEncoder.SlowTail` | lib/nghttp2_hd_huffman.c:67-105 | The path that may change chunks at every octet leaves the same octets and the same held octet as the fast one, and fails exactly for lack of room. |
| `HuffmanEncoder.FastTail` | lib/nghttp2_hd_huffman.c:107-138 | The path within one chunk leaves the same octets and the same held octet as the slow one. |
| `HuffmanEncoder.EncodeSym` | lib/nghttp2_hd_huffman.c:40-139 | The bits written and held are those held before followed by the code of the symbol; it fails exactly if they do not fit; `avail` and `rembits` are left right. |
| `HuffmanEncoder.HuffEncode` | lib/nghttp2_hd_huffman.c:152-191 | Wherever the chunk boundaries fall, exactly the Huffman form is appended, and failure means exactly that it does not fit. |
| `HpackTable.AddEntry` | lib/nghttp2_hd.c:1095-1159 | The table never exceeds its maximum size. |
| `HpackTable.AddEntryEvicts` | lib/nghttp2_hd.c:1095-1159 | Adding an entry is putting it in front of the table and evicting what is then too much, also when the entry alone is too much. |
| `HpackTable.AddEntryLongest` | lib/nghttp2_hd.c:1095-1159 | What is left is the longest run of newest entries, the added one included, that fits; nothing if the added one does not. |
| `HpackTable.EvictLongest` | lib/nghttp2_hd.c:1218-1238 | Eviction keeps the longest run of newest entries that fits. |
| `HpackTable.EvictTwice` | lib/nghttp2_hd.c:1218-1238 | Evicting to one size and then to another is evicting to the smaller. |
| `HpackTable.TableLength` | lib/nghttp2_hd.c:777-779 | A table holds at most one entry for every 32 octets of its size. |
| `HpackTable.RingBuffer.constructor` | lib/nghttp2_hd.c:588-601 | An empty ring whose size is a power of two and large enough. |
| `HpackTable.SlotMod` | lib/nghttp2_hd.c:603-607 | The masked position, computed in 64-bit words, is the remainder of the unbounded sum. |
| `HpackTable.RingBuffer.Get` | lib/nghttp2_hd.c:603-607 | The masked position holds the entry of that index, also when `first` has wrapped below zero. |
| `HpackTable.RingBuffer.Reserve` | lib/nghttp2_hd.c:609-632 | Growing the buffer keeps the entries in order. |
| `HpackTable.RingBuffer.PushFront` | lib/nghttp2_hd.c:648-662 | The entries become the new one followed by the old ones. |
| `HpackTable.RingBuffer.PopBack` | lib/nghttp2_hd.c:664-667 | The last entry goes and the others stay. |
| `Hpack.SearchSound` | lib/nghttp2_hd.c:1167-1216 | What a search finds is the field, or a field of the same name, at the index it gives. |
| `Hpack.SearchComplete` | lib/nghttp2_hd.c:1167-1216 | A field in either table is found as an exact match, a dynamic one at its smallest index. |
| `HpackDeflater.NameHash` | lib/nghttp2_hd.c:511-522 | The loop computes the 32-bit FNV-1a hash. |
| `HpackDeflater.MapFind` | lib/nghttp2_hd.c:543-570 | The walk along a chain returns the first exact match, or else the first entry of the name. |
| `HpackDeflater.SearchStatic` | lib/nghttp2_hd.c:1167-1189 | The walk along the run of a token returns the first entry with the value, or else the token's index. |
| `HpackDeflater.ChainScan` | lib/nghttp2_hd.c:528-570 | The first match in the hash chain is the first match in the whole table. |
| `HpackDeflater.ChainsPop` | lib/nghttp2_hd.c:572-586 | The oldest entry is the last of its chain and nowhere else. |
| `HpackDeflater.SeqsPush` | lib/nghttp2_hd.c:1149-1154 | With 32-bit wrap-around, entry i keeps the sequence number next_seq - 1 - i. |
| `HpackDeflater.EmitInt` | lib/nghttp2_hd.c:912-964 | The integer is appended, or there is no room for it. |
| `HpackDeflater.EmitString` | lib/nghttp2_hd.c:966-1009 | The string is appended as Huffman data exactly if that is shorter, with its length in front. |
| `Hpack.StringShortest` | lib/nghttp2_hd.c:966-1009 | A string is written in its Huffman form, flagged, exactly if that is shorter. |
| `HpackDeflater.EmitLiteral` | lib/nghttp2_hd.c:1027-1093 | A literal with indexed or new name is appended, or there is no room for it. |
| `HpackDeflater.Deflater.constructor` | lib/nghttp2_hd.c:696-718 | An empty table in a ring buffer for the default size, and a pending announcement exactly if the limit is below the default size. |
| `HpackDeflater.Deflater.MapInsert` | lib/nghttp2_hd.c:528-541 | The chains describe the table with the new entry in front. |
| `HpackDeflater.Deflater.MapRemove` | lib/nghttp2_hd.c:572-586 | The chains describe the table without the oldest entry. |
| `HpackDeflater.Deflater.EvictTo` | lib/nghttp2_hd.c:1106-1125 | The loop evicts from the ring buffer as far as needed and keeps size, sequence numbers and chains right. |
| `HpackDeflater.Deflater.AddIncremental` | lib/nghttp2_hd.c:1095-1159 | The table in the ring buffer changes as described, and its size is the sum of the entry rooms and within the maximum. |
| `HpackDeflater.Deflater.SearchHdTable` | lib/nghttp2_hd.c:1191-1216 | Hash map and sequence numbers give what linear scans of both tables give. |
| `HpackDeflater.Deflater.DeflateNv` | lib/nghttp2_hd.c:1336-1432 | Writes exactly the octets of the field or reports lack of room, and updates the table alike in both cases; which fields that puts into the table is `HpackIndexing.SecretField` and `HpackIndexing.OpenField`. |
| `HpackIndexing.SecretField` | lib/nghttp2_hd.c:1357-1366 | A field marked NO_INDEX, `authorization`, and `cookie` with a value under 20 octets leave the table alone, are written with an opcode of 0x10 to 0x1f, and are expected back with the mark. |
| `HpackIndexing.OpenField` | lib/nghttp2_hd.c:1321-1432 | Any other field is expected back without the mark. One in a table is a reference; one in none becomes the newest entry exactly if its name is not one of eight volatile ones and it takes at most three quarters of the table. |
| `HpackIndexing.ExpectedReadBack` | lib/nghttp2_hd.c:1434-1483 | Of a block every field comes back in its place, marked exactly if it is secret. |
| `HpackIndexing.NothingSecret` | lib/nghttp2_hd.c:1336-1432 | In every run of blocks and SETTINGS frames the table holds, beyond its old entries, only fields that were sent and are not secret. |
| `HpackIndexing.NeverRemembered` | lib/nghttp2_hd.c:1336-1432 | The same from a fresh encoder: what is in its table was sent, and was not secret. |
| `HpackDeflater.Deflater.DeflateHdBufs` | lib/nghttp2_hd.c:1434-1483 | Writes exactly the size updates and fields of the block, succeeds exactly if they fit, and is unusable after a failure. |
| `HpackDeflater.Deflater.ChangeTableSize` | lib/nghttp2_hd.c:1240-1254 | Keeps the smallest and the last size for the announcement and evicts at once. |
| `HpackBound.DeflateBound` | lib/nghttp2_hd.c:1550-1575 | The loop adds up 12 octets, 12 for every field, and all names and values. |
| `HpackBound.FieldLength` | lib/nghttp2_hd.c:1336-1432 | The 12 octets allowed for a field suffice if and only if it is not a literal with a new name and two strings of at least 2^28 + 127 octets that are not Huffman coded; such a field takes exactly 13. |
| `HpackBound.BlockLength` | lib/nghttp2_hd.c:1550-1575 | The bound bounds every block without such a field, in every state of the encoder. |
| `HpackBound.TightExactly` | lib/nghttp2_hd.c:1550-1575 | With two size updates of six octets pending, the bound holds for a single field if and only if it is not such a field. |
| `HpackBound.OverrunsExactly` | lib/nghttp2_hd.c:1550-1575 | A block of such fields is within the bound if and only if they are no more than what the pending size updates leave of 12 octets. |
| `HpackBound.CompactBound` | lib/nghttp2_hd.c:1550-1575 | The bound bounds every block of fields that are compact, which a caller can see without the encoder. |
| `HpackBound.BoundExactly` | lib/nghttp2_hd.c:1550-1575 | The bound holds for a field in every state of the encoder if and only if the field is compact. |
| `HpackBound.OverrunExists` | lib/nghttp2_hd.c:1550-1575 | Two strings of 2^28 + 127 octets with an 8-bit code are such a field, and its block is one octet over the bound. |
| `HpackBound.DeflateHd` | lib/nghttp2_hd.c:1485-1515 | Succeeds exactly if the block fits the buffer, hence with a buffer as large as the bound unless a field overruns it. |
| `HpackInflate.Commit` | lib/nghttp2_hd.c:1745-1823 | A commit finds its index in the table, in every reachable state. |
| `HpackInflate.Run` | lib/nghttp2_hd.c:1858-2225 | Every reachable state keeps the invariants of the decoder: lengths and indexes in range, table within its size. |
| `HpackInflate.RunChunks` | lib/nghttp2_hd.c:1858-2225 | Feeding two pieces emits the same fields, reaches the same state and gives the same verdict as feeding them joined. |
| `HpackInflate.AnyChunking` | lib/nghttp2_hd.c:1858-2225 | The same for every way of cutting the input. |
| `HpackInflate.IntBulk` | lib/nghttp2_hd.c:1640-1666 | Reading an integer in bulk is reading it octet by octet, in every state that reads one. |
| `HpackInflate.StringBulk` | lib/nghttp2_hd.c:1681-1721 | Reading a string in bulk is reading it octet by octet. |
| `HpackReading.RunRepr` | lib/nghttp2_hd.c:1858-2225 | At any point between representations the decoder takes a size update, a reference or a literal exactly if it means something: an update at the head and within both limits, an index within the tables and not 0, strings of at most 65536 octets with proper Huffman padding, and nothing else while an update is owed; and it then does what that means. |
| `HpackReading.RunReprs` | lib/nghttp2_hd.c:1858-2225 | The same for every sequence of representations, with the fields emitted, and the block may end there exactly if no update is owed. |
| `HpackReading.BlockCut` | lib/nghttp2_hd.c:2196-2217 | A block that breaks off inside a representation is never taken for a whole one. |
| `HpackReading.LoweredSize` | lib/nghttp2_hd.c:1256-1286 | After the size has been lowered nothing is taken but a size update no larger than it, not even the end of the block. |
| `HpackReading.RaisedSize` | lib/nghttp2_hd.c:1256-1286 | After it has been raised or named again only the limits differ: no update is asked for and nothing is evicted. |
| `HpackReading.StaysOwed` | lib/nghttp2_hd.c:1266-1278 | An update is owed exactly if one was owed before or the size is lowered. |
| `HpackInflater.AddIncremental` | lib/nghttp2_hd.c:1095-1159 | The inflater's table changes as the encoder's does. |
| `HpackInflater.CommitLiteral` | lib/nghttp2_hd.c:1745-1823 | Emits the field of the literal and indexes it if asked to. |
| `HpackInflater.ReadLen` | lib/nghttp2_hd.c:1640-1666 | After the call the machine has read the same integer, or fails, or waits for more input, as the outcome says. |
| `HpackInflater.ReadString` | lib/nghttp2_hd.c:1681-1721 | Reads as much as there is, and is refused exactly where the machine is. |
| `HpackInflater.CaseOpcode` | lib/nghttp2_hd.c:1881-1926 | The opcode states follow the machine, including the size updates that must come first. |
| `HpackInflater.CaseTableSize` | lib/nghttp2_hd.c:1927-1945 | A size update is applied if it is within the limit, as in the machine. |
| `HpackInflater.CaseIndex` | lib/nghttp2_hd.c:1946-1992 | An index is emitted or kept for the name, or refused, as in the machine. |
| `HpackInflater.CaseNamelen` | lib/nghttp2_hd.c:1993-2033 | The length of a name is read and checked as in the machine. |
| `HpackInflater.CaseName` | lib/nghttp2_hd.c:2034-2076 | A name is read in pieces as in the machine. |
| `HpackInflater.CaseValuelen` | lib/nghttp2_hd.c:2077-2121 | The length of a value is read and checked, and the loop goes on even without input. |
| `HpackInflater.CaseValue` | lib/nghttp2_hd.c:2122-2190 | A value is read in pieces, and the field committed, as in the machine. |
| `HpackInflater.InflateLoop` | lib/nghttp2_hd.c:1858-2225 | A call ends with a field, at the end of its input, or in an error, exactly where the machine does; it always ends. |
| `HpackInflater.Inflater.constructor` | lib/nghttp2_hd.c:720-754 | A fresh decoder. |
| `HpackInflater.Inflater.InflateHdNv` | lib/nghttp2_hd.c:1858-2225 | The object does what the machine does up to the next field, and stays unusable after an error. |
| `HpackInflater.Inflater.InflateHeaderBlock` | lib/nghttp2_session.c:3584-3698 | Calling again until the input is used up accepts exactly what the machine accepts and returns exactly its fields. |
| `HpackInflater.Inflater.InflateChunks` | lib/nghttp2_session.c:6141-6260 | However a header block is cut into calls of the bulk decoder, the fields, the verdict and the state left are those of the octet machine on the whole. |
| `HpackInflater.Inflater.ChangeTableSize` | lib/nghttp2_hd.c:1256-1286 | Refused exactly inside a header block, and then nothing changes. After a lowered size the object takes nothing but an update no larger; after any other only the limits differ. |
| `HpackSync.RunSizeUpdate` | lib/nghttp2_hd.c:1927-1945 | A written size update evicts the decoder's table to that size. |
| `HpackSync.RunUpdates` | lib/nghttp2_hd.c:1444-1466 | The one or two size updates of a block bring the decoder's table to the encoder's. |
| `HpackSync.RunField` | lib/nghttp2_hd.c:1336-1432 | Every field is read back as it was written, whichever form it took, and both tables change alike. |
| `HpackSync.RunBlock` | lib/nghttp2_hd.c:1434-1483 | A block gives back its fields in order and leaves both ends in step. |
| `HpackSync.RejectField` | lib/nghttp2_hd.c:1640-1666 | A field with a string over the limit, be it longer than 32 bits can say, is refused as soon as its length is read. |
| `HpackSync.BlockAccepted` | lib/nghttp2_hd.c:1858-2225 | The decoder accepts a block of the encoder exactly if every string written out is within its limit, for strings of any length. |
| `HpackSync.SettingsInStep` | lib/nghttp2_session.c:4305-4333 | Several table sizes in one SETTINGS frame, each applied by the encoder, and the smallest and the last by the decoder, keep both ends in step. |
| `HpackSync.RunEvents` | lib/nghttp2_hd.c:1240-1286 | From any state in step, every run of blocks and SETTINGS frames gives all fields back and leaves the tables equal after each block. |
| `HpackSync.AlwaysInStep` | lib/nghttp2_hd.c:669-754 | So does every run from two fresh ends, whatever limit the encoder was given. |
| `HpackEnds.Exchange` | tests/nghttp2_hd_test.c:975-1000 | The two objects joined: a block arrives exactly if it fits the buffers and its strings the limit, and then all fields come back, marked exactly if they are secret, and both tables are equal. |
| `HpackEnds.AnnounceSizes` | lib/nghttp2_session.c:4421-4437 | The loop over a SETTINGS frame applies every size in turn. |
| `HpackEnds.SmallestAndLast` | lib/nghttp2_session.c:4304-4319 | The loop finds the smallest and the last size. |
| `HpackEnds.AcknowledgeSizes` | lib/nghttp2_session.c:4304-4335 | The decoder applies the smallest size if it is below the last, and then the last; refused inside a block. |
| `HpackEnds.RenegotiateSizes` | lib/nghttp2_session.c:4296-4335 | A SETTINGS frame and its acknowledgement leave the two objects in step. |
| `Pq.TopFirst` | lib/nghttp2_pq.c:90-96 | For any strict weak order, no entry of a heap is before the one at the front. |
| `Pq.UpStep` | lib/nghttp2_pq.c:56-66 | A step up moves the one place where the order may fail to the parent. |
| `Pq.DownStep` | lib/nghttp2_pq.c:98-117 | A step down to the first child moves the one place where the order may fail to that child. |
| `Pq.UpHeap` | lib/nghttp2_pq.c:56-66 | Moving an entry up makes a heap if the order failed only between it and its parent. |
| `Pq.DownHeap` | lib/nghttp2_pq.c:98-117 | Moving an entry down makes a heap if the order failed only between it and its children. |
| `Pq.PushedHeap` | lib/nghttp2_pq.c:68-88 | A heap with an entry pushed is a heap. |
| `Pq.RemovedHeap` | lib/nghttp2_pq.c:128-150 | A heap with any entry removed is a heap. |
| `Pq.RemovedSame` | lib/nghttp2_pq.c:128-150 | Two comparisons that agree on the entries move them alike. |
| `Pq.Queue.BubbleUp` | lib/nghttp2_pq.c:56-66 | Computes the sequence `Up`, for any comparison, with the back-indices right; so heap order is restored when it fails only between one entry and its parent. |
| `Pq.Queue.BubbleDown` | lib/nghttp2_pq.c:98-117 | Computes the sequence `Down`, for any comparison, with the back-indices right; so heap order is restored when it fails only between one entry and its children. |
| `Pq.Queue.Push` | lib/nghttp2_pq.c:68-88 | Computes the sequence `Pushed`: the entry is added, for any comparison, and heap order is kept if the comparison is a weak order. |
| `Pq.Queue.Top` | lib/nghttp2_pq.c:90-96 | The entry at the front, none exactly if the queue is empty. If the heap is in order and the comparison is a weak order, no entry is before it. |
| `Pq.Queue.Pop` | lib/nghttp2_pq.c:119-126 | The entry at the front goes, for any comparison, and the others stay in heap order if it is a weak order. |
| `Pq.Queue.Remove` | lib/nghttp2_pq.c:128-150 | Computes the sequence `Removed`: an entry anywhere goes, for any comparison, and the others stay in heap order if it is a weak order. |
| `Pq.Queue.Update` | lib/nghttp2_pq.c:156-170 | If the callback reports a changed key, the heap is in order again whatever it was before; if it reports none, nothing moves. |
| `VirtualTime.NextCycle` | lib/nghttp2_stream.c:136-144 | What is carried over is below the weight. |
| `VirtualTime.Recovered` | lib/nghttp2_stream.c:274-284 | Undoing the last schedule gives the pending penalty modulo the old weight, and the base cycle raised by the quotient. |
| `VirtualTime.RecoveredExactly` | lib/nghttp2_stream.c:274-284 | It gives exactly the pending penalty and the base cycle if and only if the penalty was below the old weight. |
| `VirtualTime.WeightFromTheStart` | lib/nghttp2_stream.c:247-301 | Then the new cycle is that of scheduling with the new weight from the start, raised to the parent's last cycle. |
| `VirtualTime.NextInWindow` | lib/nghttp2_stream.c:136-144 | A new cycle is in the window of MAX_CYCLE_DISTANCE from the parent's last cycle. |
| `VirtualTime.ReweighedInWindow` | lib/nghttp2_stream.c:247-301 | So is the cycle after any change of weight, clamp included. |
| `VirtualTime.LessWraps` | lib/nghttp2_stream.c:47-58 | In the window the wrap-around comparison is the comparison of exact cycles and sequence numbers. |
| `VirtualTime.ReweighedWraps` | lib/nghttp2_stream.c:247-301 | In 64-bit words the change of weight does what it does in exact integers, although it tests the clamp by wrap-around. |
| `SiblingRuns.StepKeeps` | lib/nghttp2_stream.c:136-301 | Queueing, selecting, rescheduling, leaving and changing weight keep the window and the heap order, and do to words and heap what they do with exact integers. |
| `SiblingRuns.RunKeeps` | lib/nghttp2_stream.c:136-301 | In every run the words are the exact scheduler's state modulo 2^64, and the heaps are the same. |
| `SiblingRuns.StrictTotalOrder` | lib/nghttp2_stream.c:47-58 | The wrap-around order is a strict total order on the queued children. |
| `SiblingRuns.TopIsEarliest` | lib/nghttp2_stream.c:923-943 | The child at the front of the heap is the one with the smallest exact cycle and sequence number, and conversely: its turn is nearest after the last cycle, around the wrap, and of those in the same cycle it was queued first. |
| `SiblingRuns.AlwaysInWindow` | lib/nghttp2_stream.c:35-58 | In every run from an empty queue all cycles lie, modulo 2^64, in the window that starts at the last cycle, and the heap is in order. |
| `SiblingRuns.ZeroSafeSound` | lib/nghttp2_stream.c:186-201 | If every cycle is safe from zero, zeroing the last cycle keeps the window and the heap order. |
| `SiblingRuns.ZeroSafeNeeded` | lib/nghttp2_stream.c:186-201 | Only then: a queue whose window begins at zero is safe. |
| `ZeroedRuns.ZeroedOrderFails` | lib/nghttp2_stream.c:186-201 | A run of two full frames at weight 1 after which the zeroed queue has two children neither before the other. |
| `ZeroedRuns.FrontNotFirst` | lib/nghttp2_stream.c:186-201 | A run on after such a zeroing: all cycles are in the window again, yet the front of the heap is not the first child, and selecting it takes the first out of the window. |
| `Fairness.ChargedExactly` | lib/nghttp2_stream.c:136-144 | Weight times cycle plus the carried remainder grows by exactly 256 times the octets sent. |
| `Fairness.RunCharges` | lib/nghttp2_stream.c:225-245 | Over a run of any length the charge telescopes to 256 times the octets of that child. |
| `Fairness.WeightedFairness` | lib/nghttp2_stream.c:225-245 | Two children that stay queued with unchanged weights: 256 times the octets over the weight differ by at most a constant, however long the run. |
| `Fairness.FairFrom` | lib/nghttp2_stream.c:225-245 | The same from any queue with its cycles in the window. |
| `DepForest.DistributedRange` | lib/nghttp2_stream.c:310-315 | A share of a weight is at least 1 and at most the weight. |
| `DepForest.SharesExactly` | lib/nghttp2_stream.c:754-768 | The children of a removed stream get its weight times their own over the sum of theirs, rounded down but at least 1; so together its weight, up to one for each of them. |
| `DepForest.AddWf` | lib/nghttp2_stream.c:738-752 | Adding a stream or subtree under a stream outside of it keeps one ordered forest without cycles. |
| `DepForest.InsertWf` | lib/nghttp2_stream.c:589-627 | So does inserting it between a stream and its children. |
| `DepForest.RemoveSubtreeWf` | lib/nghttp2_stream.c:883-916 | So does cutting a subtree off. |
| `DepForest.RemoveWf` | lib/nghttp2_stream.c:754-803 | So does replacing a stream by its children in its place; all weights stay in 1..256. |
| `DepLinks.SetDepPrev` | lib/nghttp2_stream.c:629-633 | The loop gives every sibling of a chain the same parent. |
| `DepLinks.LastSib` | lib/nghttp2_stream.c:303-308 | The loop ends at the last sibling. |
| `DepLinks.AddShows` | lib/nghttp2_stream.c:738-752 | The pointers after adding show the forest after adding, sums included. |
| `DepLinks.Unlink` | lib/nghttp2_stream.c:662-736 | Unlinking puts the children in the place of the stream, first, in the middle, last or alone. |
| `DepLinks.ShareWeight` | lib/nghttp2_stream.c:761-767 | The loop gives every child its share and adds up the difference. |
| `DepLinks.RemoveStream` | lib/nghttp2_stream.c:754-803 | The pointers after removal show the forest after removal, sums and weights included. |
| `DepLinks.CutShows` | lib/nghttp2_stream.c:883-916 | The pointers after a subtree is cut off show the forest without it. |
| `DepLinks.InsertShows` | lib/nghttp2_stream.c:805-854 | The pointers after an insertion show the forest after it, the old children following those of the stream. |
| `DepTree.Tree.FindAncestor` | lib/nghttp2_stream.c:579-587 | The walk up finds a stream exactly if it is the stream itself or an ancestor. |
| `DepTree.Tree.Add` | lib/nghttp2_stream.c:738-752 | The pointer operation is the tree edit. |
| `DepTree.Tree.Insert` | lib/nghttp2_stream.c:589-627 | The pointer operation is the tree edit. |
| `DepTree.Tree.InsertSubtree` | lib/nghttp2_stream.c:805-854 | The pointer operation is the tree edit. |
| `DepTree.Tree.Remove` | lib/nghttp2_stream.c:754-803 | The pointer operation is the tree edit, and the children share the weight in proportion, up to rounding. |
| `DepTree.Tree.RemoveSubtree` | lib/nghttp2_stream.c:883-916 | The pointer operation is the tree edit. |
| `DepTree.Tree.ChangeWeight` | lib/nghttp2_stream.c:253-266 | The weight changes and the parent's sum with it. |
| `DepTree.Tree.Reprioritize` | lib/nghttp2_session.c:793-829 | The stream ends under its new parent with its new weight, also when the new parent was below it; an exclusive one takes over the other children; every other stream keeps its parent and weight. |
| `SchedState.PushWalk` | lib/nghttp2_stream.c:146-168 | Queueing a stream and its unqueued ancestors restores the queue invariant, keeps every window and every entry already in a queue, and gives newcomers their cycle. |
| `SchedState.PushOneQueue` | lib/nghttp2_stream.c:152-165 | Queueing one stream is the join event in the queue of its parent. |
| `SchedState.RemoveWalk` | lib/nghttp2_stream.c:175-202 | Unqueueing a stream and the ancestors that have nothing left restores the invariant and clears exactly those; only the stream's own last cycle can leave a queue without its window. |
| `SchedState.RemoveOneQueue` | lib/nghttp2_stream.c:188-196 | Unqueueing one stream is the leave event in the queue of its parent. |
| `SchedState.RequeuedTrans` | lib/nghttp2_stream.c:146-223 | Changes that concern different streams add up: each stream keeps its entry, joins anew, or is cleared. |
| `SchedState.SettledRequeued` | lib/nghttp2_stream.c:188-196 | Whatever leaves, joins or moves: streams outside of all queues owe nothing for what they have sent. |
| `SchedState.FreshJoins` | lib/nghttp2_stream.c:146-165 | So a stream queued from outside of all queues gets exactly the last cycle of its parent, however much it sent before. |
| `SchedState.EmptyFits` | lib/nghttp2_stream.c:188-201 | An empty queue is in its window and in heap order, whatever happened to it. |
| `SchedSelect.ActiveBelow` | lib/nghttp2_stream.c:121-131 | If a stream below the root is active, the root has a queued child. |
| `SchedSelect.SomeActive` | lib/nghttp2_stream.c:121-131 | And if a stream has a queued child, some stream below it is active. |
| `SchedSelect.FindItem` | lib/nghttp2_stream.c:928-942 | The walk along the fronts of the heaps ends, at an active stream through inactive ones, or at the root exactly if nothing is queued. |
| `SchedSelect.FrontFirst` | lib/nghttp2_stream.c:928-942 | In a queue whose window and heap order are right, the front is the earliest child, and of those in the same cycle the one queued first. |
| `SchedSelect.LastsWindows` | lib/nghttp2_stream.c:930-934 | Noting the cycles on the way up keeps every window and every heap in order. |
| `SchedRequeue.RescheduleWalk` | lib/nghttp2_stream.c:225-245 | The stream and all its ancestors are rescheduled in their queues, and no other queue changes. |
| `SchedRequeue.ReputQueue` | lib/nghttp2_stream.c:233-243 | Removal from the heap, new scheduling fields and return to it are the same on the state of the tree as on the queue alone. |
| `SchedRequeue.RescheduledWindows` | lib/nghttp2_stream.c:225-245 | Rescheduling keeps every window and every heap in order. |
| `SchedFair.RunsAreFair` | lib/nghttp2_stream.c:225-245 | Over a run of rounds of any length, what two queued siblings and the streams below them have sent is in the proportion of their weights, up to a constant. |
| `SchedFair.AllFair` | lib/nghttp2_stream.c:923-943 | The same for all queued siblings in the tree. |
| `SchedEdit.MoveKids` | lib/nghttp2_stream.c:210-223 | Children move from queue to queue with their places in the tree; those queued join the new queue, nobody else changes unless an unqueued ancestor must be queued, and every window is kept. |
| `SchedTree.RemoveSubtreeEdit` | lib/nghttp2_stream.c:883-916 | Tree and queue invariant are kept; the only queue that may leave its window is that of the removed stream. |
| `Scheduler.ZeroedFits` | lib/nghttp2_stream.c:186-201 | A zeroed last cycle keeps window and heap order if and only if every cycle in the queue is safe. |
| `Scheduler.IdleIsSafe` | lib/nghttp2_session.c:793-829 | If no stream below the one that moves is active, moving it harms no queue. |
| `Scheduler.OnlyChild` | lib/nghttp2_stream.c:805-854 | An exclusive child leaves its parent with a queue in order, even if it was harmed before. |
| `Scheduler.Scheduler.constructor` | lib/nghttp2_stream.c:60-104 | A root stream alone. |
| `Scheduler.Scheduler.Init` | lib/nghttp2_stream.c:60-104 | A new stream outside the tree. |
| `Scheduler.Scheduler.AttachItem` | lib/nghttp2_stream.c:477-499 | A stream is queued exactly if it is active or has a queued child, before and after; those that are not owe nothing. A stream that joins from outside of all queues gets the last cycle of its parent, one that leaves is cleared, all others keep their entries; windows are kept. |
| `Scheduler.Scheduler.DetachItem` | lib/nghttp2_stream.c:501-508 | The same as for attaching an item. |
| `Scheduler.Scheduler.DeferItem` | lib/nghttp2_stream.c:510-519 | The same as for attaching an item. |
| `Scheduler.Scheduler.ResumeDeferredItem` | lib/nghttp2_stream.c:521-534 | The same as for attaching an item, once no reason to defer is left. |
| `Scheduler.Scheduler.NextOutboundItem` | lib/nghttp2_stream.c:923-943 | Nothing exactly if no stream in the tree has an item that is not deferred; otherwise a stream with such an item and no such proper ancestor. It and its ancestors are selected, each at the front of its heap, and as the earliest, in a tie the one queued first, if that queue is in its window and in heap order; no other queue changes. |
| `Scheduler.Scheduler.AddSubtree` | lib/nghttp2_stream.c:856-881 | The tree edit, with the queue invariant and the windows kept; a stream that joins a queue counts its cycle from the last cycle there, one that leaves is cleared, all others keep their entries. |
| `Scheduler.Scheduler.Insert` | lib/nghttp2_stream.c:589-627 | The tree edit, with the queue invariant, the windows and the entries as for adding a subtree; children moved to another queue join it. |
| `Scheduler.Scheduler.InsertSubtree` | lib/nghttp2_stream.c:805-854 | The tree edit, with the queue invariant, the windows and the entries as for adding a subtree; children moved to another queue join it. |
| `Scheduler.Scheduler.Remove` | lib/nghttp2_stream.c:754-803 | The tree edit with fair shares of the weight, with the queue invariant, the windows and the entries as for adding a subtree; children moved to another queue join it. |
| `Scheduler.Scheduler.RemoveSubtree` | lib/nghttp2_stream.c:883-916 | The tree edit, with the queue invariant kept, the streams that leave cleared, and windows and heap order kept if and only if the cycles are safe from zero; always, if no child is queued. |
| `Scheduler.Scheduler.Reschedule` | lib/nghttp2_stream.c:225-245 | Every ancestor's queue has done the reschedule event, no other has changed, windows are kept; only the root of the tree is left holding a length. |
| `Scheduler.Scheduler.ServeNext` | lib/nghttp2_session.c:2479-2483 | One round, with all windows and heaps in order before and after: the stream selected is the one rescheduled, with all its ancestors. |
| `Scheduler.Scheduler.Serve` | lib/nghttp2_session.c:2479-2483 | With all windows and heaps in order, choosing, sending and rescheduling in a loop keeps them so and shares what is sent fairly between any two queued siblings, over the whole run; it ends early only if no stream is active. |
| `Scheduler.Scheduler.ChangeWeight` | lib/nghttp2_stream.c:247-301 | In the tree only the weight changes; the queue of the parent does exactly the change-of-weight event, and no other queue changes; windows are kept. |
| `Scheduler.Scheduler.FindAncestor` | lib/nghttp2_stream.c:579-587 | The walk up finds a stream exactly if it is the stream itself or an ancestor. |
| `Scheduler.Scheduler.BreakCycle` | lib/nghttp2_session.c:796-805 | A new parent below the stream takes a place beside it; tree and queues stay right, the windows exactly if its queue is safe from zero; and the queue of the stream is then safe exactly if what stays queued without the new parent is. |
| `Scheduler.Scheduler.Reprioritize` | lib/nghttp2_session.c:759-832 | The stream ends under its new parent with its new weight, every other stream where it belongs; again exactly the right streams are queued. The windows are kept if and only if the stream does not move or what stays in its queue is safe from zero, and, for a new parent from below that keeps its children, its queue is too. |
| `PriorityTree.Streams.constructor` | lib/nghttp2_stream.c:60-104 | A root stream alone, in pointers and queues. |
| `PriorityTree.Streams.Init` | lib/nghttp2_stream.c:60-104 | A new stream outside the tree, in pointers and queues. |
| `PriorityTree.Streams.AddSubtree` | lib/nghttp2_stream.c:856-881 | The pointers and the queues make the same tree edit, so the tree they share is right. |
| `PriorityTree.Streams.Insert` | lib/nghttp2_stream.c:589-627 | The pointers and the queues make the same tree edit, so the tree they share is right. |
| `PriorityTree.Streams.InsertSubtree` | lib/nghttp2_stream.c:805-854 | The pointers and the queues make the same tree edit, so the tree they share is right. |
| `PriorityTree.Streams.Remove` | lib/nghttp2_stream.c:754-803 | The same, with the weight shared out in proportion by the sum that the pointers keep. |
| `PriorityTree.Streams.RemoveSubtree` | lib/nghttp2_stream.c:883-916 | The same; the windows are kept if and only if the queue of the removed stream is safe from zero. |
| `PriorityTree.Streams.ChangeWeight` | lib/nghttp2_stream.c:247-301 | The weight changes in the pointers, with the sum of the parent, and in the queue of the parent. |
| `PriorityTree.Streams.Reprioritize` | lib/nghttp2_session.c:759-832 | Pointers and queues end in the same tree, with the stream where it belongs, and the windows are kept if and only if the move is safe. |
| `PriorityTree.Streams.AttachItem` | lib/nghttp2_stream.c:477-499 | The pointers stay and the queues change as in the scheduler. |
| `PriorityTree.Streams.DetachItem` | lib/nghttp2_stream.c:501-508 | The pointers stay and the queues change as in the scheduler. |
| `PriorityTree.Streams.NextOutboundItem` | lib/nghttp2_stream.c:923-943 | The pointers stay and the item is that of the scheduler. |
| `PriorityTree.Streams.Reschedule` | lib/nghttp2_stream.c:225-245 | The pointers stay and the queues change as in the scheduler. |
| `FlowControl.Conserved` | lib/nghttp2_helper.c:155-246 | A successful change moves local - recv by exactly the increment left to send, and keeps recv + reduction at least zero. |
| `FlowControl.AdjustedExactly` | lib/nghttp2_helper.c:155-214 | What is asked for happens: increment sent and reductions made good add up to it, the window grows by what the octets used up do not cover, a decrease is kept in full; it fails exactly if a number would leave its range. |
| `FlowControl.GrownExactly` | lib/nghttp2_helper.c:216-246 | The same for growing the window itself. |
| `FlowControl.ShrinkAndRestore` | lib/nghttp2_submit.c:421-487 | Shrinking and restoring the window restores all three values and sends nothing. |
| `FlowControl.ReductionUnseen` | lib/nghttp2_helper.c:155-246 | After a reduction the peer may send exactly what it could before, and undoing it leaves no trace. |
| `FlowControl.FlowWindow.AdjustLocalWindowSize` | lib/nghttp2_helper.c:155-214 | The 32-bit computation with its overflow tests is the change described, honours what is asked for, and moves the credit by what is left to send; a failure changes nothing. |
| `FlowControl.FlowWindow.IncreaseLocalWindowSize` | lib/nghttp2_helper.c:216-246 | The same for an increase. |
| `FlowControl.FlowWindow.SubmitWindowUpdate` | lib/nghttp2_submit.c:375-419 | What is granted to the peer is exactly what is sent, and with the reductions made good exactly what was asked for; the consumed size follows, at least zero. |
| `FlowControl.FlowWindow.SetLocalWindowSize` | lib/nghttp2_submit.c:421-487 | The window has the size asked for, a smaller one sends nothing, and each error leaves everything as it was. |
| `FlowControl.FlowWindow.ReceiveData` | lib/nghttp2_session.c:5001-5053 | An error exactly if the peer sends more than it was granted; otherwise what it has used is granted again exactly when half the window is used up and updates are on, so that the peer always has credit left. |
| `FlowControl.FlowWindow.UpdateConsumedSize` | lib/nghttp2_session.c:5093-5129 | Consumed octets are granted again at most once, exactly when they reach half the window and no update is queued. |
| `HashTable.HashMod` | lib/nghttp2_map.c:88-93 | Masking the mixed key with the length less one is the remainder, for lengths that are powers of two. |
| `HashTable.HashDoubled` | lib/nghttp2_map.c:88-93 | In a table twice as long a key stays in its bucket or goes to the one as far above. |
| `HashTable.PutHolds` | lib/nghttp2_map.c:95-112 | An entry put at the head of its bucket makes the table hold the map with that entry. |
| `HashTable.DropHolds` | lib/nghttp2_map.c:171-187 | An entry taken out of its bucket makes the table hold the map without that key. |
| `HashTable.Rehash` | lib/nghttp2_map.c:115-140 | The new table holds the same map, every entry in the bucket of its hash. |
| `HashTable.Map.constructor` | lib/nghttp2_map.c:31-43 | The empty map, in a table whose length is a power of two. |
| `HashTable.Map.Resize` | lib/nghttp2_map.c:115-140 | The same map in a larger table. |
| `HashTable.Map.Insert` | lib/nghttp2_map.c:142-157 | A new key is added; one that is there is refused and the map unchanged, resized or not; at most three quarters are full, and the length stays a power of two. |
| `HashTable.Map.Find` | lib/nghttp2_map.c:159-169 | The value of the key, or none. |
| `HashTable.Map.Remove` | lib/nghttp2_map.c:171-187 | The key goes, or there was none. |
| `HeaderFrames.HdRoundTrip` | lib/nghttp2_frame.c:37-51 | Unpacking a packed frame header gives it back. |
| `HeaderFrames.HdLayout` | lib/nghttp2_frame.c:37-43 | Length, type, flags and stream stand where section 4.1 of RFC 7540 has them, in network order. |
| `HeaderFrames.PriorityRoundTrip` | lib/nghttp2_frame.c:374-394 | Unpacking a packed priority gives it back. |
| `HeaderFrames.PriorityLayout` | lib/nghttp2_frame.c:374-381 | The exclusive bit, the stream and the weight less one stand where section 6.2 of RFC 7540 has them. |
| `HeaderFrames.WireParses` | lib/nghttp2_frame.c:37-51 | Frames one after the other are parsed as sent. |
| `HeaderFrames.PackShared` | lib/nghttp2_frame.c:280-334 | The loop puts a frame header in front of every chunk, so that the buffers hold the frames. |
| `HeaderFrames.PackHeaderBlock` | lib/nghttp2_frame.c:336-372 | The packed frames parse to one first frame and then CONTINUATION frames only, END_HEADERS on exactly the last, none longer than a chunk, payloads joined being the prefix and the block; it fails exactly for lack of room. |
| `HeaderExchange.ExtraRoundTrip` | lib/nghttp2_frame.c:374-408 | The dependency of a HEADERS frame and the promised stream of a PUSH_PROMISE frame are read back as packed. |
| `HeaderExchange.Pieces` | lib/nghttp2_session.c:6371-6420 | The loop accepts exactly the chains of one first frame and CONTINUATION frames of the same stream that end with END_HEADERS, and its pieces are the header block. |
| `HeaderExchange.ReceiveHeaderBlock` | lib/nghttp2_session.c:6141-6260 | A chain is accepted exactly if it is complete and the octet machine accepts its block, and gives the fields and the state of the machine. |
| `HeaderExchange.Transfer` | lib/nghttp2_frame.c:336-372 | Packed into frames, parsed and inflated at the other end, a header block arrives exactly if it fits the buffers and its strings the limit; then dependency or promised stream and all fields come back and both tables are equal. |
| `HttpMessaging.ParseUint` | lib/nghttp2_http.c:52-73 | The decimal value exactly if it fits 63 bits and all are digits. |
| `HttpMessaging.Lws` | lib/nghttp2_http.c:75-83 | True exactly for spaces and tabs only. |
| `HttpMessaging.Memieq` | lib/nghttp2_http.c:38-48 | Equality up to the case of letters. |
| `HttpMessaging.SameTextExactly` | lib/nghttp2_http.c:38-48 | The octets agree or are the two cases of a letter. |
| `HttpMessaging.LawfulExactly` | lib/nghttp2_http.c:115-226 | A field of a request is lawful exactly if it meets the rules one by one: known pseudo-fields outside trailers, no connection-specific field, `te` only with trailers, values not blank, a number for a length, no CONNECT on a pushed stream. |
| `HttpMessaging.LawfulResponseExactly` | lib/nghttp2_http.c:228-303 | The same for a response: a status of three digits other than 101, and a length only where the status allows one. |
| `HttpMessaging.RequestFieldsExactly` | lib/nghttp2_http.c:115-226 | Looking at one field at a time with a few flags accepts exactly the blocks in which every field is lawful, pseudo-fields come first and nothing repeats that must not, in a trailer not even from the block before; and the state left is that of the fields. |
| `HttpMessaging.RequestCompleteExactly` | lib/nghttp2_http.c:468-503 | The test on the flags is exactly the declarative rules on the fields. |
| `HttpMessaging.RequestEndExactly` | lib/nghttp2_http.c:468-503 | So is the end of the block: what it accepts and the state it leaves, for a request and for a promise. |
| `HttpMessaging.ResponseFieldsExactly` | lib/nghttp2_http.c:228-303 | Looking at one field at a time accepts exactly the blocks in which every field is lawful for the status, a pseudo-field is only `:status` at the head and in a trailer nowhere, and there is one content length at most; and the state left is that of the fields. |
| `HttpMessaging.HttpStream.CheckPseudoHeader` | lib/nghttp2_http.c:85-95 | Accepted exactly if it is the first of its kind and not blank. |
| `HttpMessaging.HttpStream.OnRequestField` | lib/nghttp2_http.c:115-226 | The branches do the step described, and refuse exactly where it does. |
| `HttpMessaging.HttpStream.OnResponseField` | lib/nghttp2_http.c:228-303 | The same for a response or trailer. |
| `HttpMessaging.HttpStream.OnRequestFields` | lib/nghttp2_http.c:407-466 | All fields of a block, one after the other, do the run described. |
| `HttpMessaging.HttpStream.OnResponseFields` | lib/nghttp2_http.c:407-466 | The same for a response or trailer. |
| `HttpMessaging.HttpStream.OnRequestHeaders` | lib/nghttp2_http.c:468-503 | Accepted exactly if the flags are complete; a plain CONNECT loses its content length, a promise keeps only its method. |
| `HttpMessaging.HttpStream.ReceiveRequest` | lib/nghttp2_http.c:407-503 | A whole header block is accepted exactly if its fields are valid and meet the rules; the stream then knows the flags and the declared length, and after a promise only the method. |
| `HttpMessaging.HttpStream.ReceiveBody` | lib/nghttp2_http.c:544-567 | DATA frames and END_STREAM are accepted exactly if the octets add up to the declared length. |
| `HttpMessaging.HttpStream.OnResponseHeaders` | lib/nghttp2_http.c:505-531 | A status is required; an informational response resets the block, and responses without body have length zero. |
| `HttpMessaging.HttpStream.ReceiveResponse` | lib/nghttp2_http.c:228-531 | A header block of a response is accepted exactly if its fields are valid and it has a status; an informational one leaves the stream ready for another block, a final one leaves status, flags and the length in force. |
| `HttpMessaging.HttpStream.OnDataChunk` | lib/nghttp2_http.c:557-567 | Refused exactly when more than the declared length has come, or a final response is still expected. |
| `HttpMessaging.HttpStream.OnRemoteEndStream` | lib/nghttp2_http.c:544-555 | Accepted exactly if the declared length has come and no final response is expected. |
| `HttpRuns.TrailerExactly` | lib/nghttp2_http.c:533-542 | A trailer is accepted exactly if its fields are valid after what the stream has seen, and leaves the length in force. |
| `HttpRuns.RestExactly` | lib/nghttp2_http.c:533-567 | After the header block, a run to END_STREAM is accepted exactly if it is DATA frames and one trailer at most, and the octets of DATA are the length in force at the end. |
| `HttpRuns.RequestsExactly` | lib/nghttp2_session.c:3728-3776 | Every run of a server, from a fresh stream to END_STREAM, is accepted exactly if it is a whole request: valid fields that meet the rules, DATA, at most one valid trailer, and the declared octets. |
| `HttpRuns.AnswersExactly` | lib/nghttp2_session.c:3728-3776 | Every run of a client is accepted exactly if it is a whole response: informational blocks, a final one, DATA, at most one valid trailer, and the octets of the length in force. |
| `HttpRuns.AlwaysInOrder` | lib/nghttp2_session.c:92-104 | In every run, ended or not, each header block accepted has its pseudo-fields first and none twice. |
| `HttpRuns.NoContent` | lib/nghttp2_http.c:505-531 | A response to HEAD and one with status 204 or 304 has no octet of DATA, whatever length it declares. |
| `HttpRuns.ReceiveBlock` | lib/nghttp2_session.c:3728-3776 | A header block is handled as request, response or trailer, and a trailer must end the stream. |
| `HttpRuns.Receive` | lib/nghttp2_session.c:3728-3776 | A header block or DATA frame does the step described, with the check at END_STREAM. |
| `HttpRuns.ReceiveAll` | lib/nghttp2_session.c:3728-3776 | The stream object accepts exactly the whole requests, or responses, and then its counters are the octets of DATA and the length in force. |

## Left out

What the model says less about than the source:

- HpackDeflater.Deflater.ChangeTableSize: takes sizes of at most 2^32 - 1, which is all a SETTINGS frame can carry, not any `size_t`.
- HpackDeflater.Deflater.MapInsert: keeps each hash chain as a sequence instead of linked entries.
- HpackDeflater.Deflater.DeflateHdBufs: strings are shorter than 2^64 octets, and after a failure nothing is said about the octets already written.
- HpackReading.RunRepr: integers are in their shortest form, and the size and the limit in force have 32 bits; how longer forms are read is `HpackInteger.DecodeLength`.
- HpackIndexing.NothingSecret: a field that is sent both as a secret and openly may be in the table.
- HpackInflate.RunChunks: about the machine that reads octet by octet; for the source's loop, which reads in bulk, it is `HpackInflater.Inflater.InflateChunks`.
- HpackInflate.AnyChunking: likewise.
- HpackInflater.AddIncremental: keeps the table as a sequence, where the encoder has its ring buffer, and computes its size from the entries instead of keeping `hd_table_bufsize`.
- HpackInflater.Inflater.InflateHdNv: states are values and the reference-counted buffers of names and values are left out.
- HpackSync.RunEvents: a SETTINGS frame and its acknowledgement fall between two header blocks of the direction they concern.
- Buffers.Bufs.constructor: chunks have room for at least one octet beyond their offset, and one chunk is kept.
- HpackTable.RingBuffer.PushFront: the ring has fewer than 2^62 entries.
- Pq.Queue.Push: the heap holds distinct entries, as pointers are, so a set says what it holds.
- Pq.Queue.Update: the callback is a function that tells whether a key has changed; the change itself is the difference between the order before and after.
- HpackBound.FieldLength: strings of at most 2^32 - 1 octets.
- SiblingRuns.AlwaysInWindow: `descendant_next_seq` is unbounded, so the sequence numbers of one queue never repeat.
- Fairness.WeightedFairness: a child is rescheduled only after it has been selected, as the session does.
- DepLinks.RemoveStream: pointers are a map from streams to links, so freeing memory is not modelled.
- SchedState.PushOneQueue: the heap of a stream is the sequence that `Pq.Queue` keeps in its array; the back-indices are in `Pq.Queue` only.
- Scheduler.Scheduler.Remove: works on the tree that the pointers of `DepTree` show, with `sum_dep_weight` as a parameter, which `PriorityTree.Streams.Remove` takes from the pointers, and moves each child's parent link together with its place in the queue.
- Scheduler.Scheduler.Insert: the stream has neither children nor an item, and `Scheduler.Scheduler.Remove` takes a stream without an active item, as the source asserts or its callers ensure.
- Scheduler.Scheduler.AttachItem: the cycle is not stated for a stream that was itself the root of a tree in which a stream was rescheduled, since it still holds the length of that frame; the session reschedules below its own root only, and this root is never queued.
- Scheduler.Scheduler.DeferItem: at least one deferral flag is given.
- DepTree.Tree.Reprioritize: the pointers; the queues are in `Scheduler.Scheduler.Reprioritize`, and the two together in `PriorityTree.Streams.Reprioritize`.
- Scheduler.Scheduler.Reprioritize: the new parent is in the tree already; opening an idle stream for it and falling back to the root are left out.
- Scheduler.Scheduler.Serve: each stream sends one frame of at most 2^24 - 1 octets in its turn, and between the turns nothing else happens to the tree.
- HashTable.Map.Insert: the length of the table is unbounded, where the source multiplies a 32-bit length; entries are values put in with no successor, and a bucket is a sequence.
- HeaderFrames.PackHeaderBlock: one method for HEADERS and PUSH_PROMISE, whose prefix is the packed priority, the promised stream or nothing; padding is left out.
- HeaderExchange.ReceiveHeaderBlock: the chain is checked before its block is inflated, and the pieces are the payloads; padding is left out.
- HttpRuns.Receive: END_STREAM comes with a frame, once; stream states and the handling of errors are left out.
- HttpMessaging.HttpStream.OnRequestField: name and value checks by the character tables are part of the field given; which fields are then ignored or refused is modelled.
- HttpMessaging.HttpStream.OnDataChunk: the number of octets received is unbounded.
- FlowControl.FlowWindow.ReceiveData: whether automatic updates are on and one is already queued is a parameter.

What is not modelled:

- The session: dispatch of frames, stream states, GOAWAY, the queues of outgoing frames, callbacks and options.
- The literal contents of the static table, the Huffman tables, the character tables and `lookup_token`.
- Allocation failure and freeing; every allocation succeeds.
- Packing and unpacking of the other frames, among them SETTINGS, ALTSVC and ORIGIN, and padding.
- `nghttp2_bufs_reset`, `_seek_last_present`, `_advance` and `_realloc`, and the vector form of deflating.
- The remote window and the change of initial window sizes for all streams.
- Everything outside `lib/`: the server, proxy, client and load generator in `src/`, and the examples.

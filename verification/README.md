# Verified models of the native engines

This project models the state machines and data structures at the core of the native engines: the
intrusive AVL tree and the CIDR prefix sets built on it, the uthash table, the mapped-DNS index and
its message handler, ByeDPI's event pool and strategy groups, the stop/fini handshake of the tunnel,
TLS record splitting and reassembly, and the ring buffer between a socket and lwIP. What is proved
are invariants over every run, refinements of simple specifications, round trips and exact
conditions; `dafny verify dfyconfig.toml` checks everything.

## What is where

- `kavl_model.dfy` has trees as values, contexts (a tree with a hole), heights, sizes, rotations and
  what inserting and erasing do to balance; `kavl.dfy`, `kavl_erase.dfy` and `kavl_iter.dfy` have the
  iterative algorithms of `kavl.h` on a store of nodes.
- `prefix_order.dfy` gives the byte-level comparator its meaning on bit strings; `prefix_set.dfy` has
  the pool of prefixes.
- `tls_observer.dfy`, `tls_split.dfy`, `tls_tamp.dfy` and `tls_tpws.dfy` have the record counter and the two
  splitters.
- `event_slots.dfy`, `event_state.dfy`, `event_known.dfy` and `event_pool.dfy` have ByeDPI's event pool:
  the parts of the state, the whole state with what each operation keeps, what callbacks may leave
  behind, and the object with its event loop.
- `groups.dfy` and `group_client.dfy` have the list of strategy groups and the retry machine over it.
- `mapped_index.dfy`, `mapped_dns.dfy` and `dns_reply.dfy` have the abstract index, the index as stored,
  and the message handler.
- `tunnel_sync.dfy` has the handshake as interleaved steps.
- `ring_buffer.dfy` has the ring buffer and its session.
- `ut_chains.dfy`, `ut_table.dfy` and `ut_hash.dfy` have uthash.
- `bytes.dfy` and `lists.dfy` have what several of them share, among it doubly linked lists by pointer.

Several invariants are written as "every part holds", with a datatype that names the parts. A proof
that needs a part asks for it by name.

## Where the code does not do what one would expect

- The pointer of a mapped-DNS answer leads back to its question if and only if the question starts
  below offset 0x4000 (`DnsReply.PointerExact`, `DnsReply.ReplyAnswers`). With a reply buffer of at
  most 0x4000 bytes, and the only caller's has 1500, that is always so (`DnsReply.SmallReplyExact`).
- The event loop calls del_event on the entry of a failed callback. With epoll, if the callback has
  deleted that entry and an add_event refused by epoll_ctl has then been given its slot, this drops
  another live entry that stays registered (`EventKnown.SelfDeleteThenRefused`). The call keeps the
  invariant if and only if the entry is live or closed (`EventKnown.LoopDeletesIff`), which is what
  `EventPool.Pool.Callback` asks of callbacks.
- A reconnection that connect_hook puts off leaves the client pointing at the deleted entry, and the
  next add_event is given just that entry (`EventKnown.DanglingReused`). Reconnecting keeps the
  invariant if and only if it is not put off (`EventPool.Pool.Reconnect`).
- A timer can fire before its time: an interrupted wait after a timeout is taken for another timeout.
  `EventPool.Pool.NextEventTv` states exactly when, `EventPool.EarlyTimeout` is an instance.
- After a failure on_trigger looks for the next group from the head of the list and saves it, while the
  reconnection looks from the failing group on. `GroupClient.Client.Retry` states exactly when both
  find the same group; after a reordering they need not, since the failing group then stands
  behind the next one, which has been given its settings.
- If `tcp_write` fails for the first of two pieces and succeeds for the second, lwIP gets the stream
  with a gap, and only then (`RingBuffer.HandOver`, `RingBuffer.PrefixUnlessGap`); the session then ends.
- A run that has started is ended by a stop if and only if some stop that saw the SEND bit has acted
  since the last one ended (`TunnelSync.ReachedIff`, `TunnelSync.MissedIff`); one that did not see it
  only leaves the STOP bit for run's next check (`TunnelSync.LateStop` is an instance). A stop between
  the last run and fini is forgotten (`TunnelSync.LostStop`).
- ClientHelloCounter counts the output of the tlsrec loop as one record more than there were splits
  if and only if there are at most 63 splits, the minor version is at most 4, and no piece is empty
  or too long (`TlsSplit.SplitCounted`).
- A stream longer than MAX_HELLO + MAX_RECORD is rejected when fed whole and may be counted in pieces
  (`TlsObserver.CountedInPieces`); the verdicts agree if and only if the bytes go wrong at some record
  (`TlsObserver.SmallChunksVerdict`).

## Model

| member | source | states |
|---|---|---|
| KavlModel.AvlMinSize | native/tpws/kavl.h:69-79 | an AVL tree of height h has at least Fib(h+2)-1 nodes |
| KavlModel.AvlDepth | native/tpws/kavl.h:69-79 | a tree whose size fits 32 bits has height at most 45, so the 64-entry arrays suffice |
| KavlModel.Rot1Avl | native/tpws/kavl.h:98-108 | a single rotation of a node that is two too heavy, with a child leaning the same way or not at all, gives an AVL tree with exact fields, lower by one unless the child was level |
| KavlModel.Rot2Avl | native/tpws/kavl.h:109-127 | the same for a child leaning the other way: the double rotation gives an AVL tree lower by one |
| KavlModel.InsertLight | native/tpws/kavl.h:153-161 | if the lowest unbalanced node on the path stays within bounds after the update, the whole tree is AVL with exact fields |
| KavlModel.InsertHeavy | native/tpws/kavl.h:163-171 | otherwise that node is two too heavy over AVL subtrees, and everything above suits a subtree lower by one, so one rotation there suffices |
| KavlModel.EraseTop | native/tpws/kavl.h:233-253 | one step of the climb: the subtree is balanced, needs a rotation, or has shrunk and the climb goes on |
| KavlModel.SuccessorBalance | native/tpws/kavl.h:206-231 | splicing in the in-order successor leaves a path on which only one subtree is lower by one |
| Kavl.Rotate1 | native/tpws/kavl.h:99-108 | the pointer and size updates produce exactly the rotated tree and touch no other node |
| Kavl.Rotate2 | native/tpws/kavl.h:110-127 | the same for two rotations, with the balance factors |
| Kavl.Find | native/tpws/kavl.h:82-95 | for a comparator monotone along the tree: returns an equal node and its rank, or null and the number of smaller nodes if there is none |
| Kavl.InsertSearch | native/tpws/kavl.h:137-152 | records the path, its directions from the lowest unbalanced node, and the insertion place, within the arrays |
| Kavl.Insert | native/tpws/kavl.h:130-173 | an equal node is returned and nothing changes; otherwise the new tree is AVL with exact sizes and balance factors and its order is the old one with the new node at its rank; all other cells are unchanged |
| KavlErase.EraseSearch | native/tpws/kavl.h:181-195 | finds the node and records the path from the fake root, within the arrays |
| KavlErase.EraseFirstSearch | native/tpws/kavl.h:196-200 | the same for the leftmost node |
| KavlErase.UnlinkSimple | native/tpws/kavl.h:203-204 | a node without right child is replaced by its left child |
| KavlErase.UnlinkDeep | native/tpws/kavl.h:206-231 | otherwise its successor takes its place, balance and size, and the path is extended to where the successor was |
| KavlErase.Climb | native/tpws/kavl.h:233-253 | rebalancing up the path ends with an AVL tree of the same order |
| KavlErase.EraseAt | native/tpws/kavl.h:202-255 | the new tree is AVL with exact sizes and its order is the old one without the node |
| KavlErase.Erase | native/tpws/kavl.h:176-256 | exactly the node that compares equal is removed and its rank reported; null and no change if there is none |
| KavlErase.EraseFirst | native/tpws/kavl.h:196-256 | the first node in order is removed |
| KavlIter.Traverse | native/tpws/kavl.h:273-310 | first and next visit every node once, in order, with a stack below 64 entries |
| PrefixOrder.BitCmpMeaning | native/tpws/pools.c:263-274 | the byte-wise comparison is negative, zero or positive exactly when one bit string is less, overlapping or greater, in both directions |
| PrefixOrder.LessTransitive | native/byedpi/mpool.c:10-26 | the strict part of the comparison is transitive, which overlapping is not |
| PrefixSet.OrderedMonotone | native/tpws/pools.c:263-275 | over pairwise non-overlapping prefixes in order, comparing with any key is monotone, so the tree search is right |
| PrefixSet.AddPrefixMeaning | native/tpws/pools.c:301-319 | adding a prefix keeps the set pairwise non-overlapping and covers exactly what was covered and what the new prefix covers |
| PrefixSet.AddAllMeaning | native/tpws/pools.c:301-350 | after any sequence of additions an address is covered by the set exactly when some added prefix covers it |
| PrefixSet.Pool.AddEach | native/tpws/pools.c:328-351 | a run of additions on the pool stores exactly that set |
| PrefixSet.Pool.AddEachThenCheck | native/tpws/pools.c:343-351 | after it, checking a full address succeeds exactly when some added prefix covers it |
| PrefixSet.FullAddress | native/tpws/pools.c:343-346 | for an address at least as long as every stored prefix, overlapping and being covered are the same |
| PrefixSet.Pool.Get | native/tpws/pools.c:320-326 | returns a stored prefix that overlaps the key, null only if none does; for full addresses it succeeds exactly when the address is covered |
| PrefixSet.Pool.Delete | native/byedpi/mpool.c:127-139 | removes exactly one overlapping prefix if there is one, with the count |
| PrefixSet.Pool.TryInsert | native/tpws/pools.c:311-311 | links the element if nothing overlaps it, otherwise returns one that does |
| PrefixSet.Pool.Add | native/byedpi/mpool.c:104-124 | the loop ends; the set becomes that of AddPrefix, the count stays the tree size, and the result covers the key |
| TlsObserver.ClientHelloCounter.Feed | tools/tls_record_observer.py:29-63 | one feed does to the fields what the recursive specification says |
| TlsObserver.ClientHelloCounter.FeedRound | tools/tls_record_observer.py:38-62 | one round of the loop, with every way it can end |
| TlsObserver.ChunksDontMatter | tools/tls_record_observer.py:29-63 | from any resting state, feeding in pieces within the limit gives the same state and results as draining the whole stream |
| TlsObserver.AnyCutSameVerdict | tools/tls_record_observer.py:29-63 | however a stream of at most MAX_HELLO + MAX_RECORD bytes is cut, the final state and the results are those of feeding it whole, with at most one result |
| TlsObserver.RejectionMeaning | tools/tls_record_observer.py:37-58 | the counter rejects exactly when, after records that leave the matter open, a header is bad or a record is one too many or makes the collected bytes malformed |
| TlsObserver.SmallChunksVerdict | tools/tls_record_observer.py:32-35 | for streams of any length in chunks of at most 65532 bytes: the verdict equals that of the whole stream if and only if that fits the limit or its bytes go wrong at some record |
| TlsObserver.CountedInPieces | tools/tls_record_observer.py:32-35 | a stream that is counted in pieces and rejected whole |
| TlsObserver.RetainedBound | tools/tls_record_observer.py:25-27 | between feeds fewer than MAX_HELLO + MAX_RECORD + 5 bytes are retained |
| TlsObserver.ResultMeaning | tools/tls_record_observer.py:45-62 | (n, b) is reported exactly when n records, and no fewer, carry a ClientHello of b bytes |
| TlsObserver.StreamResult | tools/tls_record_observer.py:29-63 | the same for a whole stream however it was cut |
| TlsObserver.Be24Inverse | tools/tls_record_observer.py:55-55 | the three length bytes, the most significant first, read back as the number they were written for |
| TlsObserver.MessageCounted | tools/tls_record_observer.py:38-62 | one handshake message in one record, written byte by byte, is counted as one record and its length with the four bytes in front exactly when the record type is 22, the version 3.0 to 3.4, the message type 1, the body not empty and the record at most 18432 bytes; otherwise the stream is rejected |
| TlsObserver.CountMessage | tools/tls_record_observer.py:29-63 | the same through a new counter object and one feed |
| TlsSplit.PartTls | native/byedpi/packets.c:559-575 | refuses exactly when there is no room or no such position; otherwise the bytes are those of the record cut in two |
| TlsTamp.SplitRecords | native/byedpi/desync.c:485-516 | for any parts and offsets the loop ends within the buffer; payloads concatenate to the original and declared lengths add up; the k-th split lies, in the original payload, at the k-th requested offset, less five when it was found in the buffer or counted from its end, plus the stride times the number of earlier repeats; splits are left out only from the first one on that lies before the last split or past the data or finds no room for a header |
| TlsTamp.PlacesOfParts | native/byedpi/desync.c:490-505 | three splits ten bytes apart fall at 1, 11 and 21, one byte after a name at buffer offset o at o - 4, and a repeat count of zero is one split |
| TlsTamp.SplitNext | native/byedpi/desync.c:495-515 | one turn of the loop: the split at its place, or refused exactly for one of the three reasons |
| TlsSplit.PayloadsOfEncode | tools/tls_record_observer.py:37-47 | parsing inverts encoding for records the counter accepts, and rejects all others |
| TlsSplit.SplitCounted | native/byedpi/desync.c:490-515 | a hello that fills the record is counted as 1 + splits if and only if at most 63 splits, a known minor version and no empty or oversized piece |
| TlsTpws.Unique | native/tpws/helpers.c:28-38 | a sorted array is compacted to its values, each once, in increasing order |
| TlsTpws.ResolveMultiPos | native/tpws/protocol.c:138-151 | the result is exactly the set of positions strictly inside the segment, in increasing order |
| TlsTpws.TwoRecords | native/tpws/tamper.c:475-491 | cutting a complete record gives two non-empty records whose payloads concatenate to the original; the bytes after it are unchanged |
| TlsTpws.MovedKeepsCuts | native/tpws/tamper.c:497-500 | adjusted positions are strictly increasing, inside the grown segment, outside the new header, and have the same original bytes after them |
| TlsTpws.CutRecord | native/tpws/tamper.c:485-491 | the in-place construction of the two records |
| TlsTpws.TamperTls | native/tpws/tamper.c:469-503 | the whole branch: it cuts exactly when there is room, the marker lies behind the header and inside the segment and the record has two bytes or more; the first record then has the payload up to the marker if that is strictly inside it, else one byte, the second the rest; positions are resolved and adjusted |
| EventSlots.FindCycle | native/byedpi/conev.c:130-137 | every live entry lies on a cycle of pair pointers or is unpaired |
| EventSlots.DropCycle | native/byedpi/conev.c:130-137 | when a whole cycle is gone no live entry points into it |
| EventState.HeadStep | native/byedpi/conev.c:113-137 | after one entry is taken out, the next call of del_event is on what is left of the cycle |
| EventState.SlotScanned | native/byedpi/conev.c:210-221 | the assertion of the poll back end holds, and a slot not changed in this batch is live, as polled and not dispatched yet |
| EventState.CountIsLive | native/byedpi/conev.c:46-78 | count is the number of live entries |
| EventState.EarliestFirst | native/byedpi/conev.c:299-317 | the head of the timer list is live and due no later than any timer of a live entry |
| EventPool.Pool.constructor | native/byedpi/conev.c:10-43 | an empty pool over uninitialised entries satisfies the invariant |
| EventPool.Pool.AddEvent | native/byedpi/conev.c:46-78 | fails exactly when full or when epoll_ctl refuses; otherwise one entry more is live and counted and the others are untouched |
| EventPool.Pool.SetTimer | native/byedpi/conev.c:249-276 | the timer goes behind the earlier deadlines and before the others in the doubly linked list; a running one is left alone |
| EventPool.Pool.RemoveTimer | native/byedpi/conev.c:279-296 | the pointer updates, on any entry |
| EventPool.Pool.DelEvent | native/byedpi/conev.c:81-139 | terminates and deletes exactly what is left of the cycle; its assertions hold |
| EventPool.Pool.Delete | native/byedpi/conev.c:81-139 | on a live entry deletes exactly its cycle and keeps the whole invariant; on a deleted one does nothing |
| EventPool.Pool.NextEpoll | native/byedpi/conev.c:162-184 | returns the next reported entry that was not changed in this batch, with its events: it is live, on the polled descriptor and not dispatched from the batch before; all entries passed over were changed; null only if nothing was reported |
| EventPool.Pool.NextPoll | native/byedpi/conev.c:197-224 | the same for poll and its slots, with its assertion |
| EventPool.Pool.NextEventTv | native/byedpi/conev.c:299-317 | a timeout dispatch takes the earliest deadline; it happens exactly when that has come, or when the batch has nothing left and the wait times out or fails with a timeout left over; nothing is taken exactly when there is no timeout and no event |
| EventPool.EarlyTimeout | native/byedpi/conev.c:306-315 | a run in which a timer is taken off the list and dispatched before its deadline |
| EventKnown.LoopDeletesIff | native/byedpi/conev.c:334-337 | the loop's del_event keeps the invariant if and only if the callback has left its entry live or closed |
| EventKnown.RefusedCorrupts | native/byedpi/conev.c:81-139 | on an entry written by a refused add_event it always breaks the invariant |
| EventKnown.SelfDeleteThenRefused | native/byedpi/conev.c:50-67 | from every state with two live entries, how a callback gets there, and which entry is lost |
| EventPool.Pool.Callback | native/byedpi/conev.c:334-335 | any sequence of operations keeps the invariant and leaves a once live entry live, closed or refused; a wish to fail is granted exactly in the first two cases |
| EventPool.Pool.LoopTurn | native/byedpi/conev.c:324-338 | one turn: dispatches exactly when a timeout or an event is due, the entry next_event_tv owes; if the callback fails, its entry and exactly its cycle are deleted; stops exactly when there is nothing to dispatch and no interruption |
| EventPool.Pool.LoopEvent | native/byedpi/conev.c:320-339 | for every script of kernel answers, clocks and such callbacks: every turn does the above to the state the last one left and the run ends early only where a turn stops; only live entries are dispatched, for an event only ones left alone since the batch was collected, each at most once per batch; an entry whose callback failed is not live after the turn |
| EventPool.FailedGone | native/byedpi/conev.c:335-337 | after a turn with a failed callback neither its entry nor that entry's pair is live, and everything outside the cycle still is |
| EventPool.Pool.Replace | native/byedpi/proxy.c:481-482 | pairing a client with its new connection, and clearing the old one's pointer, keeps the invariant |
| EventPool.Pool.Reconnect | native/byedpi/extend.c:198-221 | reconnecting deletes the old connection and pairs the client with a new entry on the new descriptor; the invariant survives if and only if connect_hook did not put the connection off |
| EventKnown.DanglingReused | native/byedpi/extend.c:615-623 | after a connection that was put off, the next add_event is given the entry the client still names, and deleting the client deletes it too |
| EventPool.Pool.Triple | native/byedpi/proxy.c:540-543 | the cycle of three of a UDP association keeps the invariant |
| EventPool.Pool.Destroy | native/byedpi/conev.c:142-147 | deleting the first entry until none is left terminates |
| Groups.SwopExchanges | native/byedpi/extend.c:308-339 | exchanged links make the same list with two positions exchanged, adjacent or not; what the positions ask for is unchanged |
| Groups.GroupList.AddGroup | native/byedpi/main.c:597-614 | appends a group with the given settings and zero counters; the others keep every field but the last one's next pointer |
| Groups.GroupList.SwopGroups | native/byedpi/extend.c:308-339 | the assignments, in their order, exchange the two positions and keep (detect, auto) by position |
| GroupClient.Client.FindDp | native/byedpi/extend.c:557-581 | terminates; the first acceptable untried group in circular order, null exactly when there is none; everything passed joins the mask |
| GroupClient.Client.Scan | native/byedpi/extend.c:359-374 | the first group in the list that is untried and takes the failure, with the mask and the unchecked rest |
| GroupClient.Client.OnTrigger | native/byedpi/extend.c:342-401 | which group is next and what joins the mask; a reordering happens exactly under its guard, exchanging the failing group with a later one; a reconnection follows exactly when the next group's position allows it; every group's failure count and priority number |
| GroupClient.Precedes | native/byedpi/extend.c:377-380 | a group that is no longer unchecked comes before the next one |
| GroupClient.Client.ConnectHook | native/byedpi/extend.c:597-634 | a client without a group adopts the cached mask, failure and group; the group is then the first acceptable untried one in circular order and recorded as an attempt, unless put off; refused exactly when there is none |
| GroupClient.Client.Retry | native/byedpi/extend.c:396-399 | after a failure the reconnection goes to the group saved as the next one if and only if that fits, a reordering has not given it settings that exclude this failure, and the failing group stands before it or no group behind the failing one can be taken |
| GroupClient.FirstFrom | native/byedpi/extend.c:557-581 | the walk from the failing group takes a group before which everything is masked exactly when it is acceptable and stands behind, or nothing behind the failing group is acceptable |
| GroupClient.Client.SetupConn | native/byedpi/extend.c:637-656 | the group is chosen again in the same way; changing it puts the old one into the mask |
| GroupClient.AtMostOnce | native/byedpi/extend.c:597-634 | masks grow strictly from attempt to attempt, so every group is tried at most once |
| GroupClient.TakeTurn | native/byedpi/extend.c:342-401 | each thing that can happen to a client, or to another one, changes client and list as the operations say, or nothing where it makes no sense |
| GroupClient.Run | native/byedpi/extend.c:198-221 | for every script of connections, first requests, responses and failures of a client, beside another one that reorders the list: every turn does what it says, and each group is connected at most once |
| MappedIndex.RunOk | native/hev-socks5-tunnel/src/hev-mapped-dns.c:102-154 | over every run live names are distinct and have distinct addresses below their number |
| MappedIndex.KeepsAddress | native/hev-socks5-tunnel/src/hev-mapped-dns.c:135-148 | a name just touched keeps its address over a run if and only if fewer than max distinct other names are touched |
| MappedIndex.StepKeeps | native/hev-socks5-tunnel/src/hev-mapped-dns.c:137-148 | only the least recently touched name is ever dropped |
| MappedDns.MappedDns.Serve | native/hev-socks5-tunnel/src/hev-mapped-dns.c:102-282 | any run of queries and lookups refines the run of the abstract index |
| MappedDns.MappedDns.FindServeLookup | native/hev-socks5-tunnel/src/hev-mapped-dns.c:135-148 | after any run that does not touch a name, its address looks up to it if and only if fewer than max names were touched |
| MappedIndex.QueryThenLookup | native/hev-socks5-tunnel/src/hev-mapped-dns.c:261-282 | looking up the address just given out answers with the name and changes nothing |
| LinkedLists.AddKeeps | native/hev-socks5-tunnel/src/misc/hev-list.c:14-25 | add_tail appends |
| LinkedLists.DelKeeps | native/hev-socks5-tunnel/src/misc/hev-list.c:27-39 | del removes from any place |
| MappedDns.AbsOk | native/hev-socks5-tunnel/src/hev-mapped-dns.c:36-42 | tree, list and records that hold the same nodes stand for a well-formed index |
| MappedDns.MappedDns.Find | native/hev-socks5-tunnel/src/hev-mapped-dns.c:102-154 | the three views stay in step and the index changes as the abstract query says; the result is the name's address |
| MappedDns.MappedDns.Lookup | native/hev-socks5-tunnel/src/hev-mapped-dns.c:261-282 | for any address the index is in range; the name that has it is returned and touched |
| MappedDns.MappedDns.FindThenLookup | native/hev-socks5-tunnel/src/hev-mapped-dns.c:231-233 | net \| find(name) looks up to name |
| MappedDns.Construct | native/hev-socks5-tunnel/src/hev-mapped-dns.c:284-305 | refuses exactly when max exceeds the host part of the mask |
| DnsReply.ScanName | native/hev-socks5-tunnel/src/hev-mapped-dns.c:214-222 | stops at the root label inside the request, having turned the name into labels joined by dots |
| DnsReply.ReadQuestion | native/hev-socks5-tunnel/src/hev-mapped-dns.c:209-238 | one question: refused exactly when it runs past the end; an A/IN question is queried in the index |
| DnsReply.ParseRange | native/hev-socks5-tunnel/src/hev-mapped-dns.c:208-239 | every answered question lies in the question section and there is at most one answer per question |
| DnsReply.Handle | native/hev-socks5-tunnel/src/hev-mapped-dns.c:178-259 | refuses exactly in the listed cases; the reply is header, questions byte for byte and one record per A/IN question in order; names are queried even if it gives up later |
| DnsReply.ReplyAnswers | native/hev-socks5-tunnel/src/hev-mapped-dns.c:193-258 | what a reader of the reply finds: id and questions as asked, the response bit set and recursion available if desired, the number of answers; and per A question a record of type 1, class 1, time to live 1, length 4 whose four bytes, the most significant first, are the address, and whose pointer leads to the question if and only if that starts below 0x4000 |
| DnsReply.NameRead | native/hev-socks5-tunnel/src/hev-mapped-dns.c:214-222 | scanning a name that was written label by label ends at its root label and gives the labels joined by dots |
| DnsReply.ParseWritten | native/hev-socks5-tunnel/src/hev-mapped-dns.c:208-239 | reading the questions of a request, written one by one, finds exactly the ones of type 1 and class 1, at their offsets and with their names |
| DnsReply.StillHeld | native/hev-socks5-tunnel/src/hev-mapped-dns.c:225-236 | the address given for an A question still belongs to its name after the rest of the request if and only if the later A questions ask for fewer than max other names |
| DnsReply.HandleThenLookup | native/hev-socks5-tunnel/src/hev-mapped-dns.c:178-285 | answering a request and looking up the four address bytes of one of its answers gives the name of that question under the same condition |
| DnsReply.SmallReplyExact | native/hev-socks5-tunnel/src/hev-mapped-dns.c:192-195 | with a reply buffer of at most 0x4000 bytes every pointer is exact |
| DnsReply.PointerExact | native/hev-socks5-tunnel/src/hev-mapped-dns.c:245-245 | the 14-bit pointer equals the offset if and only if that is below 0x4000 |
| TunnelSync.RunInv | native/hev-socks5-tunnel/src/hev-socks5-tunnel.c:698-770 | the invariant holds in every state of every interleaving |
| TunnelSync.WriteWhileOpen | native/hev-socks5-tunnel/src/hev-socks5-tunnel.c:759-764 | the event descriptor is written only while open and with at most one byte pending |
| TunnelSync.OneBody | native/hev-socks5-tunnel/src/hev-socks5-tunnel.c:752-769 | stop bodies exclude each other |
| TunnelSync.StopRemembered | native/hev-socks5-tunnel/src/hev-socks5-tunnel.c:727-728 | a stop returned before run's check and not answered yet has left the STOP bit or a pending byte |
| TunnelSync.OnlyCloseForgets | native/hev-socks5-tunnel/src/hev-socks5-tunnel.c:703-712 | a returned stop stays on record until run refuses, a run ends, or fini closes over its byte |
| TunnelSync.TraceOfStop | native/hev-socks5-tunnel/src/hev-socks5-tunnel.c:759-767 | an unanswered stop that saw SEND has left a byte or found the run ending, one that did not has left the STOP bit |
| TunnelSync.ReachedIff | native/hev-socks5-tunnel/src/hev-socks5-tunnel.c:292-295 | in every run, a byte is there for the event task, or has ended the run, exactly when a stop that saw SEND has acted since the last run ended |
| TunnelSync.MissedIff | native/hev-socks5-tunnel/src/hev-socks5-tunnel.c:727-767 | a started run is missed by all stops so far if and only if none that saw SEND has acted since the last run |
| TunnelSync.LateStop | native/hev-socks5-tunnel/src/hev-socks5-tunnel.c:765-767 | an interleaving in which a stop misses the run that has started |
| TunnelSync.LostStop | native/hev-socks5-tunnel/src/hev-socks5-tunnel.c:703-712 | an interleaving in which fini drops a stop |
| RingBuffer.Ring.Reading | native/hev-socks5-tunnel/src/misc/hev-ring-buffer.c:25-45 | the pieces hold exactly the unread bytes, in order |
| RingBuffer.Ring.Writing | native/hev-socks5-tunnel/src/misc/hev-ring-buffer.c:64-85 | the pieces are the free space and contain no byte not yet released |
| RingBuffer.Ring.Fill | native/hev-socks5-tunnel/src/misc/hev-ring-buffer.c:87-93 | what is read into them joins the stream, and nothing held changes |
| RingBuffer.Ring.ReadRelease | native/hev-socks5-tunnel/src/misc/hev-ring-buffer.c:54-62 | releases the oldest bytes; an empty ring starts over at zero |
| RingBuffer.HandOver | native/hev-socks5-tunnel/src/hev-socks5-session-tcp.c:108-121 | what lwIP is given, and that it is the stream in order unless the first write alone fails |
| RingBuffer.PrefixUnlessGap | native/hev-socks5-tunnel/src/hev-socks5-session-tcp.c:111-119 | the same as a statement about places of the stream, if and only if |
| RingBuffer.SpliceB | native/hev-socks5-tunnel/src/hev-socks5-session-tcp.c:85-131 | one splice: bytes read, bytes handed over, and the result |
| RingBuffer.Session | native/hev-socks5-tunnel/src/hev-socks5-session-tcp.c:151-160 | over every script of splices and acknowledgements the ring agrees with the totals kept by a simple reference; while splicing goes on lwIP has the stream from its beginning, each byte once and in order; the ring holds unacknowledged then unread bytes |
| UtChains.DelInChain | native/tpws/uthash.h:787-801 | deleting from a bucket keeps all chains, counts and places |
| UtChains.MoveOne | native/tpws/uthash.h:851-868 | moving one element during expansion keeps the new chains sound and the rest of the old ones walkable |
| UtTable.CountsAddUp | native/tpws/uthash.h:517-564 | in a sound table the bucket counts add up to the number of items and of listed elements |
| UtTable.RollbackGood | native/tpws/uthash.h:312-334 | undoing an addition leaves a sound table with the old order, chains and buckets |
| UtTable.TallyMore | native/tpws/uthash.h:855-860 | one element more in a bucket keeps the count of elements beyond the ideal length and the multiple of that length granted to the bucket |
| UtHash.HashTable.Add | native/tpws/uthash.h:397-423 | the element joins map and insertion order; out of memory, for a table or for buckets, leaves order, chains, buckets, count and map as they were |
| UtHash.HashTable.AddToTable | native/tpws/uthash.h:314-334 | linking, expansion at the threshold, and the rollback |
| UtHash.HashTable.Expand | native/tpws/uthash.h:832-882 | twice the buckets, all elements in their new places, same order and map; each bucket's multiple, and that expansion is given up when twice in a row more than half of the items are beyond the ideal chain length, the items per bucket rounded up |
| UtHash.HashTable.Find | native/tpws/uthash.h:744-763 | the unique element with the key, null exactly when there is none |
| UtHash.HashTable.Delete | native/tpws/uthash.h:451-478 | exactly the element goes and the others keep their order; the last one takes the table with it |

## Left out

- Sockets, epoll, poll, lwIP, the coroutine scheduler and the red-black tree: arbitrary answers, or a finite map.
- Memory: nodes live in finite maps from addresses; reuse of a freed address is not modelled, and allocation fails only in uthash.
- The local path, direction and stack arrays of `kavl.h` are sequences, with their bound of 64 asserted at every push.
- host_cmp and CMP_BYTES pools of `mpool.c`, and the eq_bitlen cache of `extend.c`.
- Part-sending in `desync.c`, the multisplit send loop of tpws, and HTTP rewriting: byte conservation is not a clean claim there.
- PartTls: a position past the declared size is stated, but SplitRecords starts from one record that reaches to the end of the buffer.
- TlsTamp.SplitRecords: gen_offset is an arbitrary function of the part, the buffer and the position.
- Reading markers into offsets in `protocol.c`: ResolveMultiPos takes the offsets before the range check; qsort is the function SortedOf.
- Groups: a mask is a set of group ids, which is what its bits mean for at most 31 groups (`1 << id` is computed in int).
- Group checks of address, protocol and host are an arbitrary predicate; the cache is an arbitrary sound entry.
- EventPool.Pool.LoopEvent: callbacks meet the two conditions proved exact above; milliseconds are not truncated to int; buffers, hosts and fake maps of an entry are not modelled.
- EventPool.Pool.SetTimer: the clock is past its origin, so a deadline is never zero.
- MappedDns: the mask is contiguous and the network aligned, so `&` and `|` are remainder and sum; max is at least 1.
- DnsReply.Handle: the byte order of the question count is not rewritten in the request buffer, and allocation does not fail.
- DnsReply.HandleThenLookup: the network's addresses fit 32 bits, as C's int has them.
- TunnelSync: what a run does besides reading the event byte.
- RingBuffer: lwIP acknowledges no more than has been read out; buffers are below 65536 bytes, as the configuration ensures.
- uthash: sorting, selection, replacement and the Bloom filter; `hashv & (n - 1)` is the remainder by the power of two n.
- Python cloud scripts, desktop code, configuration and option parsing.

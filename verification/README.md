# A model of nginx core data structures and of the node-pool control plane

The repository holds nginx 1.24.0 and a Django control plane that rents nodes of a
pool to users.  This project models the parts of both whose correctness is hardest
to see from the code, and proves what they promise for all inputs, all memory
layouts and all runs.  Nothing here was executed; every statement is a contract or a
lemma that Dafny verifies.

| module | what it models |
|---|---|
| `RedBlackTree` | the intrusive red-black tree on raw node memory: insertion, deletion with the shared sentinel's parent field, successor |
| `OpenFileCache` | the cache of open files: reference counts, descriptors, the expire queue, retests |
| `FileTree` | its tree, ordered by hash and name, as a map from names to entries |
| `OutputChain` | buffers on their way through the output chain: nothing lost, doubled or reordered |
| `WildcardHash` | wildcard names: key reversal, the tree of hashes, lookup of the longest pattern |
| `HashLayout` | the exact hash: packing of elements of different sizes into buckets, and the walk through their addresses |
| `RadixTree` | the 32-bit radix tree with its free list |
| `Pool` | the pool allocator and the growing array on top of it |
| `Inet6`, `DnsName` | text formats: IPv4 and IPv6 addresses, names in DNS messages |
| `ConfToken`, `ConfGrammar` | the reader of configuration tokens with its buffer, and the grammar of directives that it reads |
| `SrvAnswer` | the order in which the resolver gives the addresses of SRV records |
| `Crc32`, `Md5Stream` | checksums: table-driven against bitwise, streamed against whole messages |
| `HttpDate` | Gauss' formula for dates and its inverse |
| `Lease`, `Billing` | the lease protocol of the control plane, and what a lease costs |

Code that changes fields or memory is a class with methods; each method is proved
against a function or predicate of its old and new state.  Pointers are numbers, the
memory they point into is a map, and no property of their order is used.  Many
invariants come in two layers, `P(..) { Q(..) == true }`: the outer one is carried
around as one fact and the inner one is opened only in the lemmas that change it.

## Model

| member | source | states |
|---|---|---|
| `RedBlackTree.Tree.Insert` | nginx-1.24.0/src/core/ngx_rbtree.c:24-93 | the new node stands in the in-order sequence behind all keys not greater and before all greater ones; the sequence is otherwise the same, the tree stays linked in memory, red-black balanced with a black root, and no record outside it changes |
| `RedBlackTree.Tree.InsertValue` | nginx-1.24.0/src/core/ngx_rbtree.c:96-118 | the descent hangs the node, red, into the one empty child where its key belongs |
| `RedBlackTree.Tree.Delete` | nginx-1.24.0/src/core/ngx_rbtree.c:156-315 | exactly the node leaves the in-order sequence; the rest keeps its order, the fields of the node are cleared, and the tree stays linked, balanced and with a black root |
| `RedBlackTree.Tree.FixDelete` | nginx-1.24.0/src/core/ngx_rbtree.c:246-315 | the loop restores the black height that a removed black node took away, without changing the in-order sequence |
| `RedBlackTree.Tree.LeftRotate` | nginx-1.24.0/src/core/ngx_rbtree.c:318-345 | the six links that a left rotation changes, and nothing else |
| `RedBlackTree.Tree.RightRotate` | nginx-1.24.0/src/core/ngx_rbtree.c:348-375 | the six links that a right rotation changes, and nothing else |
| `RedBlackTree.Tree.Min` | nginx-1.24.0/src/core/ngx_rbtree.h:76-84 | the first node of a subtree, in focus |
| `RedBlackTree.Tree.Next` | nginx-1.24.0/src/core/ngx_rbtree.c:378-404 | the node behind the given one in the in-order sequence, and NULL exactly behind the last |
| `RedBlackTree.LogarithmicHeight` | nginx-1.24.0/src/core/ngx_rbtree.c:12-21 | 2^height is at most (n + 1)^2 in every balanced tree with a black root |
| `OpenFileCache.Cache.constructor` | nginx-1.24.0/src/core/ngx_open_file_cache.c:56-85 | an empty, consistent cache |
| `OpenFileCache.Cache.OpenCachedFile` | nginx-1.24.0/src/core/ngx_open_file_cache.c:143-486 | for every request, every consistent cache and whatever stat(), open() and fstat() say: a valid entry is told and keeps its answer; any other answer is told and stored under the name with its descriptor, inode number, error and directory flag and the time of this request, unless errors are not cached or memory is short; the entry comes to the head of the queue with one use more, or with its first one if it is new, and the others keep their order; no other entry changes, but for those that expire when a new name meets a full cache; no descriptor but the new one appears, files in use keep their descriptor, and the cache stays consistent (counts equal the cleanups that hold an entry, every descriptor has one owner, names index exactly the linked entries, at most max entries) if and only if a retest does not find the inode number of the cached descriptor on a directory; a descriptor is lost exactly in the case of `Race` |
| `OpenFileCache.TwoRequests` | nginx-1.24.0/src/core/ngx_open_file_cache.c:226-486 | a reply that was kept, an error or a directory as well as a file, is given again to a second request for the name within the time of validity, whatever the operating system says by then |
| `OpenFileCache.AskedOf` | nginx-1.24.0/src/core/ngx_open_file_cache.c:839-945 | which answer of stat() keeps the descriptor, and that open() is asked only if none does |
| `OpenFileCache.Cache.CloseCachedFile` | nginx-1.24.0/src/core/ngx_open_file_cache.c:1031-1074 | when an entry moves to the head of the queue, when its descriptor is closed and when it is freed |
| `OpenFileCache.Cache.OpenFileCleanup` | nginx-1.24.0/src/core/ngx_open_file_cache.c:1017-1028 | the exact entries and queue afterwards: one hold less; the last hold closes the descriptor of an unlinked entry, and of a linked one that was used less than min_uses times; then what expires; all other holders keep their descriptor |
| `OpenFileCache.Cache.ExpireOldCachedFiles` | nginx-1.24.0/src/core/ngx_open_file_cache.c:1094-1142 | exactly the inactive entries at the end of the queue go, the last one by force if asked, at most 3 - n of them; entries in use are detached instead; nothing else changes |
| `OpenFileCache.RaceExample` | nginx-1.24.0/src/core/ngx_open_file_cache.c:285-399 | a run that opens, expires and reopens the same file and ends with descriptor 3 lost |
| `OpenFileCache.ConfusedExample` | nginx-1.24.0/src/core/ngx_open_file_cache.c:285-399 | runs that find the inode number on a directory: a directory entry with a closed descriptor, two entries with one descriptor, or a used entry whose descriptor is closed |
| `FileTree.Lookup` | nginx-1.24.0/src/core/ngx_open_file_cache.c:1186-1223 | the descent by hash and then by name finds the entry of the map, and NULL exactly for names it does not have, whatever the hash |
| `FileTree.Insert` | nginx-1.24.0/src/core/ngx_open_file_cache.c:1145-1183 | insertion with this comparison, rebalancing included, adds the name to the map that the tree holds |
| `FileTree.Delete` | nginx-1.24.0/src/core/ngx_rbtree.c:156-315 | deletion takes the name of the entry out of this map |
| `OutputChain.Chain.OutputChain` | nginx-1.24.0/src/core/ngx_output_chain.c:41-240 | after every call, what is sent, handed over and still queued is, byte for byte and in order, all that was ever given; sent bytes are never taken back; OK leaves nothing queued and AGAIN leaves bytes queued only while all buffers are busy; every buffer handed to the filter is special or in memory if need_in_memory is set or sendfile is off, not read-only if need_in_temp is set, and not marked as a file without sendfile; of the buffers that are not queued any more and have bytes or are special, a buffer of the caller was handed over itself if and only if it meets the first two |
| `OutputChain.Chain.AsIs` | nginx-1.24.0/src/core/ngx_output_chain.c:243-300 | exactly which buffers may be passed on without a copy, and what happens to their file part |
| `OutputChain.Chain.GetBuf` | nginx-1.24.0/src/core/ngx_output_chain.c:422-495 | a new, empty buffer that is none of those in use, counted as allotted, with the size of the rest for a last buffer that is small or alone and the configured size otherwise |
| `OutputChain.Chain.CopyBuf` | nginx-1.24.0/src/core/ngx_output_chain.c:498-649 | as many bytes as there are and fit move from the front of the source to the destination, whose flags are those of the source exactly behind the last byte; only reading a file can fail |
| `OutputChain.Chain.UpdateChains` | nginx-1.24.0/src/core/ngx_buf.c:184-223 | only sent buffers of the chain itself become free again |
| `OutputChain.Chain.UpdateSent` | nginx-1.24.0/src/core/ngx_buf.c:271-314 | exactly the given number of bytes leaves the front of the pending chain |
| `OutputChain.TwoCalls` | nginx-1.24.0/src/core/ngx_output_chain.c:41-240 | from a new chain, two calls in a row hand over the concatenation |
| `WildcardHash.BuildAndFind` | nginx-1.24.0/src/core/ngx_hash.c:490-631 | adding patterns "*.d" and ".d", building the hash and looking up any name gives the value of the longest pattern that covers the name, and nothing exactly when none does |
| `WildcardHash.BuildAndFindTail` | nginx-1.24.0/src/core/ngx_hash.c:147-207 | for patterns "d.*", the value of the longest d that the name continues, and nothing exactly when there is none |
| `WildcardHash.WildcardInit` | nginx-1.24.0/src/core/ngx_hash.c:490-631 | the nested hashes built from sorted keys answer every sequence of labels with the deepest matching key |
| `WildcardHash.FindWcHead` | nginx-1.24.0/src/core/ngx_hash.c:52-143 | the walk over the characters from the right is the recursive lookup on the labels |
| `WildcardHash.FindWcTail` | nginx-1.24.0/src/core/ngx_hash.c:146-207 | the walk from the left is the recursive lookup on the labels |
| `WildcardHash.ReverseKey` | nginx-1.24.0/src/core/ngx_hash.c:907-939 | the key lists the labels of the pattern from the last to the first |
| `WildcardHash.Neighbours` | nginx-1.24.0/src/core/ngx_string.c:895-923 | in the order of ngx_dns_strcmp, keys with the same first label are neighbours |
| `HashLayout.HashInit` | nginx-1.24.0/src/core/ngx_hash.c:251-486 | every element and final null value lies at its computed address inside the allocated memory, aligned to cache lines; the number of buckets is the least one tried that fits; ERROR and division by zero exactly for the stated inputs |
| `HashLayout.StartExactly` | nginx-1.24.0/src/core/ngx_hash.c:296-303 | the first number of buckets tried: as many as the names fill when a bucket holds elements of two words, rounded down, and one at least; or 1000 less than the most allowed, if that is above 10000 and less than 100 for each name |
| `HashLayout.ElementsApart` | nginx-1.24.0/src/core/ngx_hash.c:411-438 | no two elements overlap |
| `HashLayout.EndsApart` | nginx-1.24.0/src/core/ngx_hash.c:424-448 | no element overlaps a final null value |
| `HashLayout.AllInside` | nginx-1.24.0/src/core/ngx_hash.c:372-448 | elements and null values lie inside the memory of the buckets |
| `HashLayout.Find` | nginx-1.24.0/src/core/ngx_hash.c:12-49 | the walk from address to address through a bucket gives the value of the name, and NULL exactly without one |
| `HashLayout.FindIsLookup` | nginx-1.24.0/src/core/ngx_hash.c:12-49 | this answer is the lookup in the map of names to values, as `WildcardHash` uses it for its levels |
| `HashLayout.RemIsModulo` | nginx-1.24.0/src/core/ngx_hash.c:357-358 | the bucket of a name is its hash modulo the size |
| `RadixTree.Tree.Insert` | nginx-1.24.0/src/core/ngx_radix_tree.c:108-170 | the first n bits of the key become a route, for the n ones at the start of the mask, or NGX_BUSY and no change if they were one; no other route changes; nodes are linked, the free list and the tree partition all nodes ever taken |
| `RadixTree.PrefixEqual` | nginx-1.24.0/src/core/ngx_radix_tree.c:118-135 | two keys lead to the same node of depth n exactly if their first n bits are the same, for all n up to 32 |
| `RadixTree.OnesExactly` | nginx-1.24.0/src/core/ngx_radix_tree.c:118-135 | the depth is the number of ones at the start of the mask |
| `RadixTree.Tree.Delete` | nginx-1.24.0/src/core/ngx_radix_tree.c:173-233 | the first n bits of the key are no route any more, or NGX_ERROR exactly if they were none; no other route changes; freed nodes go to the free list and no useless node remains; a fault exactly for n = 0 when no longer prefix is a route |
| `RadixTree.OnlyRoot` | nginx-1.24.0/src/core/ngx_radix_tree.c:173-233 | the tree is only a root exactly if no prefix is stored but that of length 0 |
| `RadixTree.FaultExample` | nginx-1.24.0/src/core/ngx_radix_tree.c:206-208 | inserting and deleting the prefix of length 0 in a new tree faults |
| `RadixTree.NoFaultExample` | nginx-1.24.0/src/core/ngx_radix_tree.c:197-204 | the same deletion succeeds while a longer prefix is stored |
| `RadixTree.Tree.Find` | nginx-1.24.0/src/core/ngx_radix_tree.c:236-263 | the value of the route that is the longest run of first bits of the key, and no value exactly if no run of first bits is a route |
| `RadixTree.LongestFound` | nginx-1.24.0/src/core/ngx_radix_tree.c:236-263 | a stored prefix of the key that no longer stored one beats is the one found |
| `RadixTree.LongestNone` | nginx-1.24.0/src/core/ngx_radix_tree.c:236-263 | without a stored prefix of the key there is no value |
| `RadixTree.Tree.Alloc` | nginx-1.24.0/src/core/ngx_radix_tree.c:463-488 | a node that is neither in the tree nor on the free list; no other node is lost |
| `Pool.Allocator.constructor` | nginx-1.24.0/src/core/ngx_palloc.c:18-43 | an empty pool of one block, consistent if and only if its size is a multiple of the word |
| `Pool.RoomTestExact` | nginx-1.24.0/src/core/ngx_palloc.c:157-167 | the test for room in a block is right for every region exactly if the block ends on a word; otherwise memory behind the block is handed out |
| `Pool.Allocator.Palloc` | nginx-1.24.0/src/core/ngx_palloc.c:122-132 | memory of the requested size that overlaps no region handed out before and no large allocation, all of which stay in use; small regions are aligned |
| `Pool.Allocator.Small` | nginx-1.24.0/src/core/ngx_palloc.c:148-174 | a region at the end of the first block from the current one on that has room for it, or of a new block; it overlaps nothing, and is aligned on demand |
| `Pool.Allocator.NewBlock` | nginx-1.24.0/src/core/ngx_palloc.c:177-210 | the region starts a new block at the end of the chain, each block tried has one failure more, and the current block moves behind the last one that had failed more than four times |
| `Pool.Allocator.LargeAlloc` | nginx-1.24.0/src/core/ngx_palloc.c:213-249 | the allocation is listed in the first empty one of the first five elements, or else in a new element at the head, itself a small region |
| `Pool.Allocator.Pfree` | nginx-1.24.0/src/core/ngx_palloc.c:277-294 | exactly a listed large allocation is freed and its element emptied |
| `Pool.Allocator.Reset` | nginx-1.24.0/src/core/ngx_palloc.c:99-119 | every large allocation is freed once and every block is empty again |
| `Pool.Allocator.Destroy` | nginx-1.24.0/src/core/ngx_palloc.c:46-96 | everything that the pool took from the system is freed, each once |
| `Pool.AllApart` | nginx-1.24.0/src/core/ngx_palloc.c:148-249 | in every state, all regions and large allocations are pairwise disjoint |
| `Pool.Array.constructor` | nginx-1.24.0/src/core/ngx_array.h:31-50 | an empty array with memory of its own |
| `Pool.Array.Push` | nginx-1.24.0/src/core/ngx_array.c:47-91 | the old elements keep their contents, growth is in place or to memory that overlaps nothing, and the new element has room exactly unless the array had none and could not grow in place |
| `Pool.Array.PushN` | nginx-1.24.0/src/core/ngx_array.c:94-141 | the same for n elements, which always have room |
| `Pool.EmptyArrayExample` | nginx-1.24.0/src/core/ngx_array.c:57-84 | an array made for no elements whose pushed element lies outside its memory |
| `Inet6.Inet6Addr` | nginx-1.24.0/src/core/ngx_inet.c:64-177 | the loop over the text is the recursive parser |
| `Inet6.InetAddr` | nginx-1.24.0/src/core/ngx_inet.c:19-59 | the same for dotted quads |
| `Inet6.FindRun` | nginx-1.24.0/src/core/ngx_inet.c:306-332 | the run to compress is the first of the longest runs of zero words |
| `Inet6.Inet6Ntop` | nginx-1.24.0/src/core/ngx_inet.c:295-369 | the text is that of the words with the best run compressed, and an embedded IPv4 address where the code says so |
| `Inet6.RoundTrip` | nginx-1.24.0/src/core/ngx_inet.c:64-369 | printing and parsing is the identity on all addresses, except those with an embedded 255.255.255.255 |
| `Inet6.Refused` | nginx-1.24.0/src/core/ngx_inet.c:115-130 | the printed text is refused exactly for ::ffff:255.255.255.255 and ::255.255.255.255 |
| `Inet6.OneBestRun` | nginx-1.24.0/src/core/ngx_inet.c:306-332 | the run to compress is unique |
| `Inet6.TextSize` | nginx-1.24.0/src/core/ngx_inet.c:295-369 | the text has at most 39 characters |
| `Inet6.QuadExactly` | nginx-1.24.0/src/core/ngx_inet.c:19-59 | which texts are refused as an IPv4 address: all but those of four fields with only digits, perhaps none, and a value up to 255; the others give the number of base 256 of their fields |
| `Inet6.ParseLower` | nginx-1.24.0/src/core/ngx_inet.c:131-146 | a text in upper case parses like the same text in lower case |
| `DnsName.Copy` | nginx-1.24.0/src/core/ngx_resolver.c:3975-4069 | for every message, the name that the labels and pointers spell, or an error exactly if they leave the message, use a reserved length or are too many; the second pass fills exactly what the first one measured |
| `DnsName.Expand` | nginx-1.24.0/src/core/ngx_resolver.c:4043-4068 | the second pass, which checks nothing, stays inside message and buffer and ends |
| `DnsName.CreateName` | nginx-1.24.0/src/core/ngx_resolver.c:3724-3757 | filling from the end gives the labels with their lengths, and is declined exactly for empty names and labels of 0 or more than 255 bytes |
| `DnsName.RoundTrip` | nginx-1.24.0/src/core/ngx_resolver.c:3724-4069 | a name written into a query anywhere in a message is read back in lower case if and only if its labels have at most 63 bytes and there are at most 127 of them |
| `DnsName.LongLabel` | nginx-1.24.0/src/core/ngx_resolver.c:3999-4003 | what is written for a first label of 64 to 191 bytes is refused on reading |
| `DnsName.LabelAsPointer` | nginx-1.24.0/src/core/ngx_resolver.c:3999-4011 | a first label of 192 bytes or more is read as a pointer |
| `DnsName.LabelsThenPointer` | nginx-1.24.0/src/core/ngx_resolver.c:3992-4022 | labels and then a pointer to anywhere in the message are read as the labels and what stands there, or refused exactly if that is |
| `DnsName.PointedName` | nginx-1.24.0/src/core/ngx_resolver.c:3992-4068 | a name whose tail is a pointer to a written name is read as the whole name |
| `DnsName.LowerByByte` | nginx-1.24.0/src/core/ngx_string.c:22-31 | the letters from A to Z move by 32, and no other byte changes |
| `ConfToken.Reader.ReadToken` | nginx-1.24.0/src/core/ngx_conf_file.c:502-817 | words and outcome are those of the whole text, wherever the 4096-byte buffer is refilled, unless a word or comment does not fit the buffer, which is then the outcome |
| `ConfToken.QuoteRoundTrip` | nginx-1.24.0/src/core/ngx_conf_file.c:502-817 | any non-empty list of words, quoted and escaped, is read back as it was |
| `ConfToken.QuotedWordsRead` | nginx-1.24.0/src/core/ngx_conf_file.c:531-817 | the same for the reader with its buffer, if every escaped word with its two quotes is shorter than the 4096 bytes of the buffer |
| `ConfGrammar.DirectiveLaw` | nginx-1.24.0/src/core/ngx_conf_file.c:502-817 | a directive is a list of words, bare or in single or double quotes, with escapes and `${`, any blanks and comment lines between them, and an end: it is read as the meanings of its words, with NGX_OK for `;`, NGX_CONF_BLOCK_START for `{` and an error for `}` |
| `ConfGrammar.DirectiveRead` | nginx-1.24.0/src/core/ngx_conf_file.c:502-817 | the same for the reader with its buffer, unless a word or comment is too long for it |
| `ConfGrammar.NoWords` | nginx-1.24.0/src/core/ngx_conf_file.c:658-690 | behind blanks and comments only, `}` ends a block, and `;` and `{` are errors |
| `ConfGrammar.NothingLeft` | nginx-1.24.0/src/core/ngx_conf_file.c:536-569 | blanks and comments up to the end of the file, the last of them perhaps without the end of its line, are the end of the configuration |
| `ConfGrammar.FileDoneExactly` | nginx-1.24.0/src/core/ngx_conf_file.c:536-569 | and the end is found in no other case: not behind or inside a word |
| `ConfGrammar.AfterQuote` | nginx-1.24.0/src/core/ngx_conf_file.c:632-656 | behind a closing quote, anything but a blank, `;`, `{` and `)` is an error |
| `SrvAnswer.Resolve` | nginx-1.24.0/src/core/ngx_resolver.c:2808-2859 | from the records of any message to the answer: every address once, lowest priorities first, for any draws |
| `SrvAnswer.ReadRecords` | nginx-1.24.0/src/core/ngx_resolver.c:2808-2859 | reading makes all weights positive, sorts stably by priority and loses no address |
| `SrvAnswer.Sort` | nginx-1.24.0/src/core/ngx_string.c:2052-2080 | the insertion sort orders by priority, keeps the order of records of the same priority, and loses no address |
| `SrvAnswer.ReportSrv` | nginx-1.24.0/src/core/ngx_resolver.c:4302-4408 | every address of the sorted records once, lowest priorities first; in rounds that cover the records in turn, one for each priority, each of them from the record on that its draw falls on |
| `SrvAnswer.RoundBegins` | nginx-1.24.0/src/core/ngx_resolver.c:4369-4393 | a round begins with the addresses, the priority and the weight of the record that its draw falls on |
| `SrvAnswer.PickStart` | nginx-1.24.0/src/core/ngx_resolver.c:4369-4377 | the record a draw falls on lies in the group |
| `SrvAnswer.FairStart` | nginx-1.24.0/src/core/ngx_resolver.c:4354-4377 | as many draws fall on a record as it has addresses, times its weight |
| `SrvAnswer.FallsOnOne` | nginx-1.24.0/src/core/ngx_resolver.c:4369-4377 | every draw falls on one record only |
| `SrvAnswer.ZeroWeights` | nginx-1.24.0/src/core/ngx_resolver.c:4354-4367 | a group whose weights were left 0 has nothing to draw |
| `SrvAnswer.ZeroWeightsExample` | nginx-1.24.0/src/core/ngx_resolver.c:2838-2840 | such a group with an address, which the nw == 0 branch would drop |
| `SrvAnswer.Export` | nginx-1.24.0/src/core/ngx_resolver.c:4219-4300 | both lists of addresses, each rotated, fill the rotated destination exactly |
| `Md5Stream.Md5.Update` | nginx-1.24.0/src/core/ngx_md5.c:30-58 | the state after any sequence of pieces is that of their concatenation |
| `Md5Stream.Md5.Final` | nginx-1.24.0/src/core/ngx_md5.c:61-111 | the digest is that of the padded whole message, as section 3 of RFC 1321 defines padding |
| `Md5Stream.PaddedParts` | nginx-1.24.0/src/core/ngx_md5.c:66-89 | the padded message is whole blocks: the message, the byte 0x80, zeros, and eight bytes that stand for 8 times its length modulo 2^64 |
| `Md5Stream.LittleNumber` | nginx-1.24.0/src/core/ngx_md5.c:81-89 | the last eight bytes are the length in bits, lowest byte first |
| `Md5Stream.WordNumber` | nginx-1.24.0/src/core/ngx_md5.c:93-108 | the four bytes of a word of the digest are the word, lowest byte first |
| `Md5Stream.InitBytes` | nginx-1.24.0/src/core/ngx_md5.c:17-27 | the initial words are the bytes of section 3.3 of RFC 1321 |
| `Md5Stream.GapIsLeast` | nginx-1.24.0/src/core/ngx_md5.c:66-79 | the padding is the least that leaves room for the length |
| `Md5Stream.FasterF` | nginx-1.24.0/src/core/ngx_md5.c:122-122 | the faster F is the F of RFC 1321 |
| `Md5Stream.FasterG` | nginx-1.24.0/src/core/ngx_md5.c:123-123 | the faster G is the G of RFC 1321 |
| `Crc32.Crc32Short` | nginx-1.24.0/src/core/ngx_crc32.h:20-35 | the nibble table computes the bitwise CRC |
| `Crc32.Crc32Long` | nginx-1.24.0/src/core/ngx_crc32.h:38-50 | the byte table computes the bitwise CRC |
| `Crc32.Crc32Update` | nginx-1.24.0/src/core/ngx_crc32.h:57-69 | an update is the bitwise CRC from the given state |
| `Crc32.UpdateTwice` | nginx-1.24.0/src/core/ngx_crc32.h:57-69 | two updates are one with the concatenation |
| `Crc32.ShortTable` | nginx-1.24.0/src/core/ngx_crc32.c:26-31 | all 16 entries divide four bits by the polynomial |
| `Crc32.FullTable` | nginx-1.24.0/src/core/ngx_crc32.c:34-99 | all 256 entries divide eight bits by the polynomial |
| `HttpDate.DayByDay` | nginx-1.24.0/src/core/ngx_parse_time.c:236-266 | the formula counts every day of the Gregorian calendar by one |
| `HttpDate.CountedFromEpoch` | nginx-1.24.0/src/core/ngx_parse_time.c:245-266 | every date from 1970 on is the one reached by counting its number of days |
| `HttpDate.Monotone` | nginx-1.24.0/src/core/ngx_parse_time.c:245-266 | later dates have larger numbers |
| `HttpDate.OneDate` | nginx-1.24.0/src/core/ngx_parse_time.c:245-266 | different dates have different numbers |
| `HttpDate.Exact` | nginx-1.24.0/src/core/ngx_parse_time.c:245-266 | the unsigned arithmetic wraps back to the exact number of seconds, also before 1970 |
| `HttpDate.AcceptedIsGregorian` | nginx-1.24.0/src/core/ngx_parse_time.c:223-234 | the checks let through exactly the dates of the calendar, and day 0 |
| `HttpDate.Gmtime` | nginx-1.24.0/src/core/ngx_times.c:323-425 | the date and time of day whose seconds are the argument, its day of the week, and what is truncated at both ends |
| `HttpDate.RoundTrip` | nginx-1.24.0/src/core/ngx_times.c:323-425 | a date of the years 1970 to 9999 turned into seconds and back is the same |
| `Billing.FixedIsLeast` | backend/control_plane/services/billing.py:24-52 | the units are the least positive number that covers the whole seconds elapsed |
| `Billing.FixedMonotone` | backend/control_plane/services/billing.py:24-52 | a longer lease does not cost less |
| `Billing.ChargedInSeconds` | backend/control_plane/services/billing.py:16-52 | minutes, hours, days and weeks are charged as the least positive number of 60, 3600, 86400 and 604800 seconds that covers the lease |
| `Billing.NothingCharged` | backend/control_plane/services/billing.py:37-67 | nothing is charged exactly if a time is missing or the end comes before the start; the amount is the price times the units |
| `Billing.CostMonotone` | backend/control_plane/services/billing.py:28-68 | whatever the unit, a lease that ends later does not cost less |
| `Billing.MonthsCounted` | backend/control_plane/services/billing.py:54-66 | the months charged are exactly those that meet the half-open interval |
| `Billing.MonthsSplit` | backend/control_plane/services/billing.py:54-66 | a split at a month boundary costs nothing, any other split one month |
| `Billing.GregorianRegular` | backend/control_plane/services/billing.py:57-62 | the Gregorian calendar at any fixed offset from UTC is a calendar for which this holds |
| `Billing.MonthOfDate` | backend/control_plane/services/billing.py:57-62 | in it, the month of a time is year * 12 + month of its local date |
| `Lease.ControlPlane.Rent` | backend/control_plane/views.py:288-372 | without capacity, and then without any change, exactly if fewer nodes than asked for are FREE with the tier and the region of the request, where "default" is any region; otherwise different nodes of this kind, those seen longest ago, become ASSIGNED, each with one new live lease of the user at the unit and price asked for; a repeated request id gives the first answer again |
| `Lease.GrantedFields` | backend/control_plane/views.py:314-362 | the same, field by field, for any state that is granted from another |
| `Lease.ShortFields` | backend/control_plane/views.py:314-329 | there are too few nodes exactly if those with the three fields are fewer than asked for |
| `Lease.ControlPlane.Release` | backend/control_plane/views.py:375-437 | which leases end and how, which nodes are being released, and that those before a foreign id stay released |
| `Lease.ControlPlane.ForceReleaseLease` | backend/control_plane/views.py:635-666 | the lease ends once, its node is being released unless an administrator holds it |
| `Lease.ControlPlane.ForceReleaseNode` | backend/control_plane/views.py:669-720 | every unfinished lease of the node ends, others do not, and the node is free, offline or still held |
| `Lease.ControlPlane.SetNodeState` | backend/control_plane/views.py:474-494 | refused for any other word; the new status; the invariant survives if and only if the node is not set free online under a live lease |
| `Lease.ControlPlane.DeleteNode` | backend/control_plane/views.py:784-825 | refused exactly with an unfinished lease; otherwise the node, its leases and their records go, and nothing else |
| `Lease.ControlPlane.NodeConnected` | backend/control_plane/consumers.py:279-301 | a node becomes free exactly if no administrator and no lease holds it |
| `Lease.ControlPlane.NodeHello` | backend/control_plane/consumers.py:322-346 | the same from OFFLINE and RELEASING, with region and tier |
| `Lease.ControlPlane.NodeOffline` | backend/control_plane/services/lease_lifecycle.py:76-104 | the node is offline and exactly its leases in use have ended |
| `Lease.ControlPlane.MarkReady` | backend/control_plane/consumers.py:362-384 | when a lease becomes ready, and that its clock starts only once |
| `Lease.ControlPlane.Authorize` | backend/control_plane/consumers.py:478-486 | a stream is given exactly to the owner of a lease whose status is ready or active; that lease is not live exactly if it has ended and kept such a status |
| `Lease.ControlPlane.SetActive` | backend/control_plane/consumers.py:488-493 | only the status changes, and no bill |
| `Lease.ControlPlane.StuckNode` | backend/control_plane/consumers.py:488-493 | the node of a lease that has ended with a status in use reconnects, says hello, has no live lease, stays OFFLINE, and cannot be deleted |
| `Lease.ControlPlane.UnstickNode` | backend/control_plane/views.py:474-720 | an administrator frees such a node by releasing it or by setting it free |
| `Lease.ControlPlane.FreedExactly` | backend/control_plane/consumers.py:279-346 | connecting and hello free a node that no administrator holds exactly if none of its leases has a status in use |
| `Lease.StuckExample` | backend/control_plane/consumers.py:387-493 | a run from connecting to the stuck node |
| `Lease.StreamedAfterEnd` | backend/control_plane/consumers.py:478-493 | a run in which an ended lease is authorized |
| `Lease.ControlPlane.ReleaseAgain` | backend/control_plane/views.py:396-417 | releasing a lease that had ended changes no lease and moves its node to RELEASING exactly if it is neither held by an administrator nor RELEASING already |
| `Lease.TakenAway` | backend/control_plane/views.py:396-417 | a run in which this takes the node from the live, ready lease of another user |
| `Lease.ControlPlane.End` | backend/control_plane/services/lease_lifecycle.py:34-73 | ending is done once: bill and record agree and never change again |
| `Lease.FreeBreaks` | backend/control_plane/views.py:488-490 | a node set free under a live lease breaks the invariant |
| `Lease.FreeBreaksExample` | backend/control_plane/views.py:488-490 | such a state |
| `Lease.RentedTwice` | backend/control_plane/views.py:474-494 | a run that sets a rented node free and rents it again: two live leases of two users on one node |

The invariant of `Lease` (`Safe`), kept by every handler but `SetNodeState`: a node
has at most one live lease, a node with a live lease is not free, a live lease has no
bill, an ended one has exactly one record, and the record agrees with the lease.  Every
handler also keeps `Lingering`: a lease that has ended with a status in use stays so.

## Findings

Where the code does not meet a property, the model keeps the code, shows an input and
states the exact condition.

- Open file cache: a retest that opens a new descriptor for a file with the same inode
  number overwrites the cached descriptor without closing it
  (`OpenFileCache.Race`, `RaceExample`).
- Array: pushing to an array made for no elements doubles nothing; the element lies
  outside the array's memory unless it could grow in place (`Pool.Array.Push`,
  `EmptyArrayExample`).  Pushing n elements does not have this fault.
- Open file cache: inode numbers are compared without the device.  A retest that finds
  the number of the cached descriptor on a directory stores this descriptor once more: it
  is closed and kept, or held by two entries, or closed under its users
  (`OpenFileCache.Confused`, `TwiceStored`, `ConfusedExample`).
- Pool: in a block that does not end on a word, the unsigned test for room succeeds
  behind the end of the block (`Pool.RoomTestExact`); the configuration only admits
  multiples of 16 for the pools it sizes.
- Administrators can set an online node free under a live lease, after which it is rented
  a second time (`Lease.ControlPlane.SetNodeState`, `FreeBreaks`, `RentedTwice`).
- A lease whose activation is written after its end keeps a status in use.  Its user may
  stream it (`StreamedAfterEnd`), and its node is freed neither by reconnecting nor by its
  hello, nor deleted (`StuckNode`, `StuckExample`); an administrator who releases the
  node or sets it free brings it back (`UnstickNode`).
- Releasing a lease that had ended moves its node to RELEASING, also when another user has
  it by then (`Lease.ControlPlane.ReleaseAgain`, `TakenAway`).
- Releasing several leases stops at the first unknown one with an error, and the leases
  before it stay released (`Lease.ControlPlane.Release`).
- Two IPv6 addresses are printed but refused when read (`Inet6.Refused`).  IPv4 addresses
  with empty fields, such as "1..2.3", are accepted (`Inet6.QuadExactly`).
- Names with labels of 64 to 255 bytes are written into queries although they cannot be
  read back, and so are names of more than 127 labels (`DnsName.RoundTrip`,
  `LongLabel`, `LabelAsPointer`).
- HTTP dates with day 0 are accepted (`HttpDate.AcceptedIsGregorian`).
- Deleting the prefix of length 0 from a radix tree that stores no longer one follows the
  null parent of the root (`RadixTree.Tree.Delete`, `FaultExample`).
- Building a hash without names and with a bucket size of 8 to 23 bytes divides by zero
  (`HashLayout.DividesByZero`).

## Left out

- Failure of memory allocation, except where `gotMemory` in `OpenFileCache` stands for it.
- `RedBlackTree`: insertion by timer value and the insertion functions of other modules than the open file cache; several trees that share one sentinel.
- `OpenFileCache`: the events on descriptors, symbolic link checks, openat, the file
  sizes and times that are copied along, and the destruction of the cache.  What happens
  after the invariant is broken is not followed.  Its tree is a map by name; `FileTree`
  proves that the red-black tree implements this map, for names without a zero byte.
- `OutputChain`: asynchronous and threaded reads, direct I/O, the alignment of file
  buffers, the sendfile limit, and the flush and last flags of buffers.
- `WildcardHash`: sorting by the C library and conversion to lower case; keys come sorted
  in the order of ngx_dns_strcmp, and names have no control characters, which that order
  would put before the dot.  The check for conflicting keys in ngx_hash_add_key is the
  assumption `Declared`.  Tag bits of pointers are constructors, and each level is a map.
- `HashLayout`: an element is one record at its address, and not its single bytes; names with a null key, which ngx_hash_init skips, the conversion of names to lower case, and the debug output.
- `RadixTree`: preallocation and the 128-bit variant.
- `Pool`: cleanup handlers, ngx_pmemalign with other alignments, ngx_array_destroy.
- `DnsName`, `SrvAnswer`: transport, timers and caching in the resolver, and the headers
  of messages.  Random numbers are parameters or arbitrary.
- `Inet6`: ports, CIDR blocks and URLs.
- `ConfToken`: line numbers, read errors and the dump of the configuration; directives
  and their handlers.
- `Md5Stream`: the compression function is a parameter; clearing the state at the end.
- `HttpDate`: the text of dates, and 32-bit time_t.
- `Lease`: authentication, notifications, JSON of responses, updates of a node's
  nickname; clock, fresh ids and prices are parameters.  Every handler is one step, since
  the handlers run in transactions or touch one row.
- `Billing`: time zones whose local month steps back at a change of offset, for which
  the month of a time is not monotone; rounding of decimal prices.
- Parts of nginx beyond these files, the streaming client and the web pages: mostly
  input and output, or members as simple as their code.

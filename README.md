# OpenDiamond core, modelled in Dafny

OpenDiamond is a platform for interactive search over non-indexed data.
A client sends searchlets (filter chains) to storage daemons, and each
daemon runs the filters over its objects and streams back the objects that
pass. This project models the parts of that system listed below and proves
properties of the model:

- `ring.dfy` (module `Ring`) models the bounded FIFO ring of libtools, a
  class over an array with a `head` and a `tail` index. One slot is always
  left free.
- `storage_stub.dfy` (module `StorageStub`) models the storage stub's
  per-connection object queues: a ring of complete objects and a ring of
  partial objects, and how objects are queued, taken and flushed.
- `filter_stats.dfy` (module `FilterStats`) models the filter executor's
  statistics and its conditional pass-probability table. A table node is
  keyed by a filter and the sorted ids of the filters that ran before it.
- `config.py` is modelled by `config.dfy` (module `Config`): the Diamond
  parameter registry and the steps of `DiamondConfig.__init__` that set
  defaults, read `KEY value` lines and apply keyword overrides.
- `gigapan_cookie.dfy` (module `GigapanCookie`) models the GigaPan scope
  server's `generate_cookie`, which spreads proxies over GigaPans, or
  GigaPans over proxies, round-robin.
- `rand_idx.dfy` (module `RandIdx`) models the `rand_idx` tool: parsing a
  group id, naming its index file, and shuffling the file's entries by
  swaps.
- `odisk.dfy` (module `ObjectDisk`) models the emulated object disk: a
  directory scan that skips non-regular and attribute files, and a
  whole-file object load.
- `adiskd.dfy` (module `StorageDaemon`) models the storage daemon's option
  flags and the bookkeeping of its listener loop (reaping children and
  starting background work).
- `wrappers.dfy`, `text.dfy` and `numbers.dfy` are shared helpers:
  Option/Result, ASCII character classes, Python 2's `str.strip` and
  `int()` on byte strings,
  decimal and hex digits, and positional values of digit sequences.

Imperative source code is modelled as classes and methods with loop
invariants. Each method is proved against a specification function, and
lemmas state the properties of those functions. Some inputs are passed in
as parameters: the directory listing, file contents, option characters,
child pids, the random swap picks, and constants defined in headers that
are not part of this model (`ATTR_EXT`, `GID_IDX`, `INVALID_FILTER_ID`,
`MAX_FILTER_NAME`).

## Model

| member | source | states |
|---|---|---|
| Ring.Next | src/lib/libtools/ring.c:198-201 | The wrapped successor of an index in a ring of `size` slots stays in `[0, size)` and equals `(i + 1) mod size`. |
| Ring.CountOf | src/lib/libtools/ring.c:222-226 | ring_count's difference lies in `[0, size)` and equals `(head - tail) mod size`. |
| Ring.EnqueueRaisesCount | src/lib/libtools/ring.c:241-262 | Advancing head on a non-full ring raises the count by exactly one. |
| Ring.DequeueLowersCount | src/lib/libtools/ring.c:274-284 | Advancing tail on a non-empty ring lowers the count by exactly one. |
| Ring.FullIffAtCapacity | src/lib/libtools/ring.c:193-215 | The full test (the slot after head is tail) holds exactly when the count is `size - 1`. |
| Ring.RingData.constructor | src/lib/libtools/ring.c:137-176 | ring_init: both indices 0, `num_elems` slots, nothing queued, the ring invariant holds. |
| Ring.RingData.AtMostCapacity | src/lib/libtools/ring.c:217-232 | A valid ring holds at most `size - 1` items (the bound ring_count asserts), and its count is `CountOf(head, tail)`. |
| Ring.RingData.IsEmpty | src/lib/libtools/ring.c:179-191 | ring_empty: the indices coincide exactly when the queue is empty. |
| Ring.RingData.IsFull | src/lib/libtools/ring.c:193-215 | ring_full: true exactly when the slot after head is tail, which is exactly when `size - 1` items are queued. |
| Ring.RingData.Count | src/lib/libtools/ring.c:217-232 | ring_count returns the number of queued items, between 0 and `size - 1`. |
| Ring.RingData.Enqueue | src/lib/libtools/ring.c:235-266 | ring_enq on a full ring returns 1 and changes nothing. Otherwise it writes the item at the old head, advances head, appends the item to the queue and returns 0. |
| Ring.RingData.Dequeue | src/lib/libtools/ring.c:268-288 | ring_deq on an empty ring returns NULL and moves no index. Otherwise it returns the oldest item, advances tail and drops that item from the front of the queue. |
| StorageStub.ConnState.SendObj | src/lib/transport/socket/storagestub/sstub_api.c:77-120 | Sets the object-data flag, then appends the object and its version to the complete or the partial ring. Returns 1 and leaves both queues unchanged when that ring is full; otherwise returns 0. The other ring is untouched. |
| StorageStub.ConnState.GetPartial | src/lib/transport/socket/storagestub/sstub_api.c:122-148 | Returns 1 and leaves `*obj` alone when the partial ring is empty; otherwise returns 0 with the oldest partial object, removed from the queue. |
| StorageStub.ConnState.FlushObjs | src/lib/transport/socket/storagestub/sstub_api.c:150-194 | Both rings end empty and the result is 0. Every queued object is released exactly once: the complete ring first, then the partial ring, each in queue order. |
| StorageStub.ReleaseAll | src/lib/transport/socket/storagestub/sstub_api.c:169-191 | One drain loop: the ring ends empty and the release log grows by the ring's objects in queue order. |
| FilterStats.ClearedReportsZero | src/lib/libfilterexec/fexec_stats.c:37-42 | After clearing, a filter reports 0 objects processed, 0 dropped and 0 average time under the same name. |
| FilterStats.AverageTime | src/lib/libfilterexec/fexec_stats.c:73-78 | The average time is 0 for a filter never called; otherwise it is the floor of the total time over the calls. |
| FilterStats.CString | src/lib/libfilterexec/fexec_stats.c:69-70 | The string in a char buffer is the prefix before the first NUL. |
| FilterStats.CopyName | src/lib/libfilterexec/fexec_stats.c:69-70 | strncpy into `MAX_FILTER_NAME` characters, then a NUL in the last one. The buffer holds the C string of the name up to the cut, and NUL from the cut to the end, even when the name has a NUL inside it. |
| FilterStats.CopyNameTruncates | src/lib/libfilterexec/fexec_stats.c:69-70 | For every name, the copied buffer reads back as the name's C string cut to at most `MAX_FILTER_NAME - 1` characters. |
| FilterStats.StatOf | src/lib/libfilterexec/fexec_stats.c:59-78 | One stats entry reports the calls as objects processed and the drops as objects dropped. Its name buffer reads back as the truncated name. Its average time is 0 for a filter never called, otherwise the floor of total time over calls. |
| FilterStats.StatsWritten | src/lib/libfilterexec/fexec_stats.c:59-65 | The loop fills entries 0 to `max`, and no more than the number of filters. It stops short only when there are more filters than that. |
| FilterStats.GetStats | src/lib/libfilterexec/fexec_stats.c:47-82 | Returns -1 for NULL filter data, and -1 exactly when some filter's index exceeds `max`; otherwise 0. Entries below the written count hold that filter's stats and all other entries are unchanged. |
| FilterStats.IdComp | src/lib/libfilterexec/fexec_stats.c:153-168 | id_comp is -1, 0 or 1 exactly when the first id is below, equal to or above the second. |
| FilterStats.Insert | src/lib/libfilterexec/fexec_stats.c:184 | Inserting into a sorted id list gives a sorted list with the same elements plus the new one. |
| FilterStats.SortIds | src/lib/libfilterexec/fexec_stats.c:184 | The qsort result is sorted and a permutation of the input. |
| FilterStats.SortedUnique | src/lib/libfilterexec/fexec_stats.c:184 | Two sorted lists with the same elements are equal, so the qsort result does not depend on how qsort orders equal ids. |
| FilterStats.SortIdsPermutation | src/lib/libfilterexec/fexec_stats.c:182-184 | Previous-filter lists that are permutations of each other sort to the same list. |
| FilterStats.Find | src/lib/libfilterexec/fexec_stats.c:107-115 | The lookup finds the first node with the same filter and the same id list, or reports none exactly when no node matches. |
| FilterStats.Bump | src/lib/libfilterexec/fexec_stats.c:186-195 | Counting one run adds a node exactly when the key had none, and afterwards the key has a node. |
| FilterStats.ApplyUpdate | src/lib/libfilterexec/fexec_stats.c:171-215 | fexec_update_prob adds at most two nodes and removes none, and afterwards the union key (`INVALID_FILTER_ID`, sorted previous ids plus the filter) has a node. |
| FilterStats.BumpCountsKey | src/lib/libfilterexec/fexec_stats.c:187-195 | Looking up (or creating) a node and counting one run raises its key's executions by one, and its passes by one exactly when the run passed. |
| FilterStats.BumpKeepsOtherKeys | src/lib/libfilterexec/fexec_stats.c:187-195 | Counting a run leaves every other key's executions and passes as they were. |
| FilterStats.BumpKeepsTableOk | src/lib/libfilterexec/fexec_stats.c:187-195 | Counting a run of a sorted key keeps the table invariant: passes never exceed executions, id lists are sorted, and there is one node per key. |
| FilterStats.UpdateKeepsTableOk | src/lib/libfilterexec/fexec_stats.c:171-215 | fexec_update_prob keeps the table invariant. |
| FilterStats.UpdateCountsFilterNode | src/lib/libfilterexec/fexec_stats.c:182-195 | fexec_update_prob counts one run, and one pass if the filter passed, for the filter and its sorted previous filters. |
| FilterStats.UpdateCountsUnionNode | src/lib/libfilterexec/fexec_stats.c:198-212 | fexec_update_prob counts one run, and one pass if the filter passed, for the union node: `INVALID_FILTER_ID` with the sorted previous filters plus the current one. |
| FilterStats.UpdateIgnoresPrevOrder | src/lib/libfilterexec/fexec_stats.c:182-184 | The order of the previous-filter list does not change the updated table. |
| FilterStats.FilterData.ClearStats | src/lib/libfilterexec/fexec_stats.c:32-44 | Every filter below `fd_num_filters` is cleared and every other entry is left alone. |
| FilterStats.FilterData.LookupProb | src/lib/libfilterexec/fexec_stats.c:95-116 | Returns the position of the first matching node, or -1 (NULL) exactly when no node matches. |
| FilterStats.FilterData.NewProb | src/lib/libfilterexec/fexec_stats.c:120-146 | A node for the key with 0 runs and 0 passes is inserted at the head of the list. |
| FilterStats.FilterData.CountRun | src/lib/libfilterexec/fexec_stats.c:186-195 | Looks up or creates the node for the key and counts one run. The table becomes `Bump` of the old one, whose effect the Bump lemmas state. |
| FilterStats.FilterData.UpdateProb | src/lib/libfilterexec/fexec_stats.c:171-215 | The table becomes the specified update of the old one, and the table invariant is kept. |
| Config.Index | lib/python/opendiamond/config.py:33-41 | Every entry of a registry dictionary is filed under that parameter's own attribute or key. |
| Config.IndexNames | lib/python/opendiamond/config.py:37-41 | A name is in a registry dictionary exactly when some parameter carries that name. |
| Config.IndexLast | lib/python/opendiamond/config.py:37-41 | The parameter filed under a name is the last one carrying it, so a later parameter replaces an earlier one. |
| Config.DistinctRegistryConsistent | lib/python/opendiamond/config.py:34-41 | Without repeated names, the registry is consistent. A key's parameter that has an attribute is the one registered under that attribute. |
| Config.RegistryHasAttr | lib/python/opendiamond/config.py:47-49 | `has_attr` on the registry of a table is true exactly when some parameter of the table has that attribute. |
| Config.RegistryGetKey | lib/python/opendiamond/config.py:51-53 | `get_key` on the registry of a table raises KeyError exactly when no parameter has that key, and otherwise returns the last parameter that has it. |
| Config.NewConfigParams | lib/python/opendiamond/config.py:34-41 | The `__init__` loop builds exactly the registry specified by `Index`, whose properties IndexNames and IndexLast state. |
| Config.RegistryAttrNames | lib/python/opendiamond/config.py:34-41 | The attribute dictionary holds exactly the table's attribute names. |
| Config.SetDefaults | lib/python/opendiamond/config.py:123-125 | Every registered attribute, and no other, is set to its parameter's default. |
| Config.DefaultsOfTable | lib/python/opendiamond/config.py:123-125 | Each attribute starts at the default of the last parameter registering it. |
| Config.DefaultThreads | lib/python/opendiamond/config.py:83-86 | The default thread count is at least 2 and at least the processor count. It is either 2 or that count, and 2 when sysconf fails. |
| Config.PathJoin | lib/python/opendiamond/config.py:92 | `os.path.join` ends with the name, and starts with the directory unless the name is absolute. |
| Config.DiamondParamsDistinct | lib/python/opendiamond/config.py:89-121 | No attribute name and no config key occurs twice in the Diamond table. |
| Config.DiamondTableEntries | lib/python/opendiamond/config.py:89-121 | `threads`, `serverids` and `cachedir` are registered with the default thread count, `[]` and `confdir/cache`. |
| Config.WordEnd | lib/python/opendiamond/config.py:134 | The first word of a string ends at its first white-space character, or at the end of the string. |
| Config.SplitKeyValue | lib/python/opendiamond/config.py:134 | When `split(None, 1)` yields two parts, the key is a non-empty word and the value is non-empty with no leading white space. |
| Config.SplitKeyLine | lib/python/opendiamond/config.py:134 | A line of white space, a key, white space and a value splits into exactly that key and value. |
| Config.SplitLoneKey | lib/python/opendiamond/config.py:134 | A line with at most one word does not unpack into two parts (ValueError). |
| Config.StoreValue | lib/python/opendiamond/config.py:140-146 | Storing a value read for a list, integer or other parameter keeps the attributes conforming to the registry. |
| Config.ApplyLine | lib/python/opendiamond/config.py:130-148 | The effect of one line keeps the attributes conforming to the registry. |
| Config.ParseLines | lib/python/opendiamond/config.py:128-150 | Reading the whole file keeps the attributes conforming to the registry, stopping at the first error. |
| Config.CommentLineIgnored | lib/python/opendiamond/config.py:131-132 | A line starting with `#` changes nothing. |
| Config.LoneKeyIsSyntaxError | lib/python/opendiamond/config.py:134-148 | A lone key or a blank line raises `Syntax error: <stripped line>`. |
| Config.KeyValueLine | lib/python/opendiamond/config.py:134-137 | A `KEY value` line reaches the key lookup with KEY and the stripped value. |
| Config.UnknownKeyRejected | lib/python/opendiamond/config.py:136-139 | An unregistered key raises `Unknown config key: KEY`. |
| Config.DeprecatedKeyIgnored | lib/python/opendiamond/config.py:140 | A key whose parameter has no attribute (DATATYPE) is accepted and changes nothing. |
| Config.IntValueParsed | lib/python/opendiamond/config.py:143-148 | An integer (or boolean) parameter takes `int(value)`, and a value `int()` rejects raises a syntax error. |
| Config.KeyLineStores | lib/python/opendiamond/config.py:140-146 | A line for a key with an attribute stores its stripped value according to the default's type. |
| Config.ListLineAppends | lib/python/opendiamond/config.py:141-142 | A line for a list parameter appends its stripped value. |
| Config.StrLineSets | lib/python/opendiamond/config.py:145-146 | A line for a string parameter replaces the value with its stripped value. |
| Config.ListValuesAccumulate | lib/python/opendiamond/config.py:141-142 | Lines for a list parameter (SERVERID) append their stripped values in file order. |
| Config.StringLastWins | lib/python/opendiamond/config.py:145-146 | Of several lines for a string parameter, the last one's stripped value is kept. |
| Config.KwargsMap | lib/python/opendiamond/config.py:57 | Every keyword given is a key of the keyword dictionary. |
| Config.KwargsMapKeys | lib/python/opendiamond/config.py:57 | The keyword dictionary holds exactly the keywords given. |
| Config.KwargsMapValue | lib/python/opendiamond/config.py:57 | A keyword's value is the one given with it. |
| Config.FirstInvalid | lib/python/opendiamond/config.py:153-158 | Gives the position of the first keyword that is not a registered attribute. Every keyword before it is registered. |
| Config.AllKeywordsValid | lib/python/opendiamond/config.py:153-158 | There is no invalid keyword exactly when every keyword is a registered attribute. |
| Config.ApplyOverrides | lib/python/opendiamond/config.py:152-158 | When all keywords are registered, every keyword's value replaces its attribute. Otherwise AttributeError names the first invalid keyword. |
| Config.LoadConfig | lib/python/opendiamond/config.py:123-158 | Reports the file's error if reading fails. Otherwise it gives the parsed attributes with the overrides applied, or the override error. |
| Config.OkResultKeys | lib/python/opendiamond/config.py:123-158 | A successful load sets exactly the registered attributes. |
| Config.Configure | lib/python/opendiamond/config.py:89-158 | For a table without repeated names, a successful result has exactly the table's attribute names. With no lines and no keywords, every attribute holds its default. |
| Config.DiamondConfigInit | lib/python/opendiamond/config.py:83-158 | Over the Diamond table, a successful result has exactly its attributes. With an empty file and no keywords: `threads` is the default thread count, `serverids` is `[]` and `cachedir` is `confdir/cache`. |
| GigapanCookie.GigapanPathInjective | opendiamond/scopeserver/gigapan/views.py:32 | Different ids give different `/gigapan/%d` paths. |
| GigapanCookie.DistinctGigapans | opendiamond/scopeserver/gigapan/views.py:32 | Ids with distinct integer values give distinct GigaPan paths. |
| GigapanCookie.Gigapans | opendiamond/scopeserver/gigapan/views.py:32 | The GigaPan list is ValueError exactly when some id is rejected by `int()`; otherwise it has one path per id. |
| GigapanCookie.Slot | opendiamond/scopeserver/gigapan/views.py:39 | The index after n round-robin steps over g keys is below g, and is n itself while n < g. |
| GigapanCookie.SlotRound | opendiamond/scopeserver/gigapan/views.py:36-39 | Item n goes to key n mod g in turn n div g. |
| GigapanCookie.NextSlot | opendiamond/scopeserver/gigapan/views.py:39 | The index update `(i + 1) % len` moves one slot on. |
| GigapanCookie.Bucket | opendiamond/scopeserver/gigapan/views.py:38 | A key's bucket after n items holds at most n items. |
| GigapanCookie.Distribute | opendiamond/scopeserver/gigapan/views.py:35-39 | The setdefault/append loop gives every key that received an item its round-robin bucket, never empty. Each of the first keys, one per item, receives an item. |
| GigapanCookie.BucketSize | opendiamond/scopeserver/gigapan/views.py:37-39 | With distinct keys, the bucket of key j holds the count of items whose index is j mod g. |
| GigapanCookie.ItemPlacement | opendiamond/scopeserver/gigapan/views.py:37-39 | Item k is element number k div g of the bucket of key k mod g. |
| GigapanCookie.RoundRobinBalanced | opendiamond/scopeserver/gigapan/views.py:37-39 | With distinct keys, bucket sizes differ by at most one, and every bucket is non-empty when items are at least as many as keys. |
| GigapanCookie.BucketContent | opendiamond/scopeserver/gigapan/views.py:36-39 | With distinct keys, after n items the bucket of key j holds exactly items j, j + g, j + 2g, ... below n, in that order. |
| GigapanCookie.RoundRobinExact | opendiamond/scopeserver/gigapan/views.py:36-39 | Every item is placed exactly once: bucket j holds exactly the items whose index is j mod g, in index order, and item k is element k div g of bucket k mod g. |
| GigapanCookie.CookieRequests | opendiamond/scopeserver/gigapan/views.py:34-58 | With the GigaPan list built, the result is IndexError exactly when one of the GigaPans and the proxies is empty and the other is not. Otherwise there is one cookie call per element of the shorter list. |
| GigapanCookie.GigapanCookies | opendiamond/scopeserver/gigapan/views.py:35-49 | The branch where proxies outnumber GigaPans makes exactly the calls GigapanRequests specifies. |
| GigapanCookie.ProxyCookies | opendiamond/scopeserver/gigapan/views.py:51-58 | The other branch makes exactly the calls ProxyRequests specifies. |
| GigapanCookie.GenerateCookie | opendiamond/scopeserver/gigapan/views.py:29-58 | An id that `int()` rejects gives ValueError (ids are read as ASCII, see Left out). Otherwise the result is the specified calls, and IndexError exactly when one of ids and proxies is empty and the other is not. |
| GigapanCookie.ManyProxies | opendiamond/scopeserver/gigapan/views.py:34-49 | When proxies outnumber distinct GigaPans, every GigaPan gets a proxy. A GigaPan is sent as a relative path with the server list exactly when it has several proxies, otherwise as its full URL. Proxy k goes to GigaPan k mod G as its proxy number k div G, and GigaPan i gets exactly proxies i, i + G, i + 2G, ..., so each proxy is assigned once. These statements assume distinct GigaPan ids and distinct proxies; with a repeated id the `mapping` dict merges the buckets, and the same cookie is emitted once per repeat, as the model's `Bucket` does. |
| GigapanCookie.FewProxies | opendiamond/scopeserver/gigapan/views.py:50-58 | Otherwise every distinct proxy gets at least one URL and is the only server in its cookie. GigaPan k is URL number k div P of proxy k mod P, and proxy j gets exactly the URLs of GigaPans j, j + P, j + 2P, ..., so each GigaPan is assigned once. These statements assume distinct proxies and distinct GigaPan ids; with a repeated proxy the `mapping` dict merges its buckets, and the same cookie is emitted once per repeat, as the model's `Bucket` does. |
| RandIdx.ByteAt | src/tools/rand_idx/rand_idx.c:37 | `%2x` on two hex digits gives a byte below 256. |
| RandIdx.ParseGid | src/tools/rand_idx/rand_idx.c:19-43 | A group id parses exactly when it is well formed: eight groups of two hex digits, separated by `:`, at least 23 characters. |
| RandIdx.ParseUint64String | src/tools/rand_idx/rand_idx.c:19-43 | The loop result equals `ParseGid`: the eight bytes big-endian, or failure where a check fails. |
| RandIdx.ParseGidBound | src/tools/rand_idx/rand_idx.c:19-43 | A parsed group id fits in 64 bits. |
| RandIdx.ParseFormatGid | src/tools/rand_idx/rand_idx.c:33-40 | Any 64-bit gid written as eight colon-separated hex bytes is well formed and parses back to itself. |
| RandIdx.ParseIgnoresCase | src/tools/rand_idx/rand_idx.c:35-37 | Upper- and lower-case hex digits parse alike. |
| RandIdx.AsWrittenAgrees | src/tools/rand_idx/rand_idx.c:33-40 | On a well-formed group id, the loop as written agrees with the corrected parse. |
| RandIdx.ParseAsWritten | src/tools/rand_idx/rand_idx.c:33-40 | The loop as written succeeds exactly when each of the 24 bytes it reads passes its group check with `:` or `'\0'` after each group, and its result fits in 64 bits. |
| RandIdx.AsWrittenReadsPastEnd | src/tools/rand_idx/rand_idx.c:35-36 | `"01"` is rejected by the corrected parse. The loop as written accepts it and reads the seven groups that lie past its terminator. |
| RandIdx.Hex16 | src/tools/rand_idx/rand_idx.c:122 | `%016llX` gives 16 upper-case hex digits. |
| RandIdx.IndexFileName | src/tools/rand_idx/rand_idx.c:122 | The index file name is `/opt/dir1/` and `GID_IDX` followed by 16 more characters. |
| RandIdx.IndexFileNameGid | src/tools/rand_idx/rand_idx.c:122 | The index file name is `/opt/dir1/`, then `GID_IDX`, then 16 hex digits whose value is the gid. |
| RandIdx.IndexFileNameInjective | src/tools/rand_idx/rand_idx.c:122 | Different 64-bit gids name different index files. |
| RandIdx.GidArgumentIndexFile | src/tools/rand_idx/rand_idx.c:107-122 | A gid given to `-g` in group-id form names that gid's index file. |
| RandIdx.Swap | src/tools/rand_idx/rand_idx.c:156-158 | Exchanging two entries swaps them, leaves the others alone and keeps the multiset. |
| RandIdx.ApplySwaps | src/tools/rand_idx/rand_idx.c:151-159 | The swap sequence keeps the number of entries. |
| RandIdx.ShufflePermutes | src/tools/rand_idx/rand_idx.c:151-159 | The shuffle is a permutation of the entries. |
| RandIdx.SelfPicksChangeNothing | src/tools/rand_idx/rand_idx.c:154 | Picks with `j == k` leave the entries unchanged. |
| RandIdx.Shuffle | src/tools/rand_idx/rand_idx.c:151-159 | The in-place loop leaves the buffer equal to the specified swaps of the old contents, a permutation of them. |
| ObjectDisk.LoadObj | src/lib/libodisk/odisk.c:41-105 | A name of `MAX_FNAME` or more characters gives EINVAL. A missing or empty file gives ENOENT. Otherwise the object holds the whole file, its length and no attributes. |
| ObjectDisk.FirstEligible | src/lib/libodisk/odisk.c:121-148 | Gives the first entry that is a regular file and not an attribute file; every entry before it is neither. |
| ObjectDisk.IsAttrFile | src/lib/libodisk/odisk.c:137-148 | A name is an attribute file name exactly when it is a non-empty stem followed by `ATTR_EXT`. |
| ObjectDisk.Eligible | src/lib/libodisk/odisk.c:131-148 | An entry is loaded exactly when it is a regular file whose name is not a non-empty stem plus `ATTR_EXT`. A regular file whose name is no longer than `ATTR_EXT` is always loaded. |
| ObjectDisk.EntryPath | src/lib/libodisk/odisk.c:150 | The entry path is the directory, `/`, and the name. |
| ObjectDisk.DirStream.NextObj | src/lib/libodisk/odisk.c:109-160 | Consumes entries up to and including the first eligible one and returns its load result unchanged. Returns ENOENT with the stream exhausted when there is none. |
| ObjectDisk.ExtensionAloneIsObject | src/lib/libodisk/odisk.c:141-148 | A regular file named exactly `ATTR_EXT` is an object, since the name must be longer than the extension. |
| ObjectDisk.AttrFileSkipped | src/lib/libodisk/odisk.c:141-148 | A regular file named a non-empty stem plus `ATTR_EXT` is skipped. |
| ObjectDisk.LongEntryNameRejected | src/lib/libodisk/odisk.c:54-57 | Entry names of `MAX_FNAME - 10` characters or more fail with EINVAL, because the length check applies to the full path. |
| StorageDaemon.ApplyOption | src/adiskd/adiskd.c:96-136 | An option exits exactly when it is not one of `bdilns`, with status 0 for `-h` and 1 otherwise. |
| StorageDaemon.ParseFlags | src/adiskd/adiskd.c:91-137 | The getopt loop exits only with status 0 or 1, and only when some option sets no flag. |
| StorageDaemon.ParseContinues | src/adiskd/adiskd.c:91-137 | Option parsing carries on exactly when every option sets a flag. |
| StorageDaemon.OptionEffect | src/adiskd/adiskd.c:97-129 | Each flag option changes exactly its own flags: `-n` clears fork and daemon and leaves background on. |
| StorageDaemon.ParseFlagsResult | src/adiskd/adiskd.c:91-137 | Whatever their order or repetition, each flag ends up changed exactly when one of its options was given. |
| StorageDaemon.ParseExitStatus | src/adiskd/adiskd.c:106-135 | Parsing stops at the first option that sets no flag, with status 0 for `-h` and 1 otherwise. |
| StorageDaemon.OptionsIdempotent | src/adiskd/adiskd.c:91-137 | Giving the same options again changes nothing. |
| StorageDaemon.Daemon.constructor | src/adiskd/adiskd.c:54-61 | The globals start with daemon, fork and background on, quiet, all interfaces, no active searches and no background pid. |
| StorageDaemon.Daemon.ParseOptions | src/adiskd/adiskd.c:91-137 | The getopt loop leaves the flags as `ParseFlags` specifies, or returns the exit status it specifies. |
| StorageDaemon.Daemon.Reap | src/adiskd/adiskd.c:200-207 | Reaping the background child frees the background slot. Reaping any other child ends one search. Nothing changes when no child was reaped. |
| StorageDaemon.Daemon.StartBackground | src/adiskd/adiskd.c:209-220 | Background work starts exactly when there is no background child, no active search and background work is enabled. It is forked, recording the child's pid, exactly when forking is on; otherwise it runs inline. |
| Text.Strip | lib/python/opendiamond/config.py:135 | `str.strip()` removes only leading and trailing white space: the result is a slice `s[i..j]` whose prefix `s[..i]` and suffix `s[j..]` are all white space, and it neither begins nor ends with white space. |
| Text.ParseInt | opendiamond/scopeserver/gigapan/views.py:32 | `int()` accepts a stripped text only when it starts with a digit or a sign, and gives a negative number only after `-`. |
| Text.ParseDecimal | opendiamond/scopeserver/gigapan/views.py:32 | `int()` of the `%d` rendering of any integer gives that integer back. |
| Text.DecimalStringInjective | opendiamond/scopeserver/gigapan/views.py:32 | Different integers have different `%d` renderings. |

## Left out

- The ring's mutex, its enqueue/dequeue rate tracking (`ring_update_erate`, `ring_update_drate`, `last_deq`, `en_state`) and `ring_enq_idx`: they only feed the rate estimates. Operations are modelled as sequential.
- Allocation failure (`malloc` returning NULL, ENOMEM, ENOENT from `ring_init`, the `assert(... != NULL)` after allocations) is not modelled in any of the modelled files.
- StorageStub.ConnState.SendObj: when the ring is full, the source leaks the `obj_info_t` it allocated. The model has no heap cells for it, so the leak is not shown.
- `sstub_get_drate`, `sstub_get_conn_info` and the `sstub_init*` entry points are left out. The connection state is created by the listener code, which is not part of this model, so `ConnState` gets a plain constructor.
- The release callback of `sstub_flush_objs` is modelled as appending the object to a release log, and `free(oi)` is not modelled.
- `fexec_evaluate`, the cost printing and the probability dump of `fexec_stats.c` are left out, and so is the code under `#ifdef XXX`. `fexec_hash_prob` always answers 0, so the hash table is modelled as its single list.
- `INVALID_FILTER_ID` and `MAX_FILTER_NAME` are defined in headers that are not part of this model, so they are a field and a parameter.
- The path of `DiamondConfig.__init__` is left out: the path argument, the environment variables and the `IOError` for an unreadable file. The file is given as its lines, which Python's file iteration never yields empty.
- The directory creation, the hostname fallback for an empty `serverids` and the certificate loading that follow the overrides in `DiamondConfig.__init__` are left out. They do file-system and network I/O.
- The keyword arguments are given as a sequence in the order the dictionary yields them. Python does not fix that order, so the order decides which invalid keyword the AttributeError names.
- `generate_cookie_django` is not part of this model: `generate_cookie` yields the sequence of its calls' arguments, in the order their outputs are joined. The `HttpResponse` and the Django views around it are left out.
- The signature of `generate_cookie_django` is not part of this model. Its second positional parameter is taken to be the server list, so a call records its scope URLs, servers and proxies.
- `get_rand` and the `rand()` it calls are replaced by a sequence of swap picks given as input, all in range. When `rand()` returns `RAND_MAX`, `get_rand` computes `max` itself, which its own `assert(new < max)` rejects; that abort is not modelled. The `stat`, `fopen`, `fread` and `fwrite` of the index file, the `nstat` computation from the file size, and the getopt loop and usage of `rand_idx` are left out.
- `GID_IDX` and `ATTR_EXT` come from headers that are not part of this model and are parameters.
- `opendir`, `readdir` and `fopen` are replaced by a list of directory entries and a map of file contents, and the printing on errors is left out. `odisk_open_dir`, `odisk_init` and the fixed-size `path_name` buffer are left out.
- `daemon()`, `sstub_init_2`, `sstub_listen`, `waitpid`, `fork` and `start_background` are I/O or process control. The pids they return are parameters, and the callback table is left out.
- RandIdx.ParseUint64String: a failed assertion aborts the C program. The model reports it as `None`.
- GigapanCookie.GenerateCookie: the ids are read as ASCII text. The ids come from a Django form as unicode strings, and Python 2's `int()` on a unicode string also accepts non-ASCII decimal digits and Unicode white space (`u"\u0661\u0662"` is 12). The model reports such ids as ValueError.
- FilterStats: the counters `fi_called`, `fi_drop`, `fi_pass` and `fi_time_ns` of a filter and `num_pass` and `num_exec` of a table node are unbounded `nat`s. The C counters are fixed-width integers incremented with `++`, so their overflow and wrap-around are not modelled. The same holds for `active_searches` in StorageDaemon. Ring indices stay below the ring size, so their width does not matter.

## Findings

| source | as written | input that shows it | evidently intended | confidence | as-written member | corrected member |
|---|---|---|---|---|---|---|
| src/tools/rand_idx/rand_idx.c:36 | After every one of the eight groups, the separator check accepts `'\0'` as well as `':'`. A string that ends after an early group passes the check, and the next iteration reads past the end of the string. | `"01"`: group 0 passes with `'\0'` after it, and groups 1 to 7 are read from whatever memory follows. With `"02:03:04:05:06:07:08"` there, the result is 0x0102030405060708. | `'\0'` is accepted only after the eighth group; each earlier group must be followed by `':'`. | not executed; found by stating the round trip of a group-id parse | RandIdx.ParseAsWritten, RandIdx.AsWrittenReadsPastEnd | RandIdx.ParseUint64String, RandIdx.ParseFormatGid |

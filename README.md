# browscap-php pattern retrieval, modelled in Dafny

browscap-php identifies a browser by matching its user-agent string against
the patterns of the Browser Capabilities Project. Before any pattern is
matched, the class `BrowscapPHP\Parser\Helper\GetPattern` narrows the search.
Its generator `getPatterns($userAgent)` works like this:

- it asks `Pattern::getHashForPattern` for the list of hash prefixes ("starts") of the user agent;
- it appends the catch-all start `str_repeat('z', 32)`;
- for every start in turn it probes the cache shard `browscap.patterns.<subkey>`;
- it skips the start when the key is absent, the fetch fails, or the value is not a non-empty array;
- otherwise it yields the trimmed text after the first TAB of every entry whose text before that TAB is the start;
- it always ends with one empty string.

The class also holds the injected cache and logger, with their getters and setters.

The project has five files:

- `php_strings.dfy` (module `PhpStrings`): the PHP built-ins the retriever uses.
  - `trim`, with its default character list.
  - `explode("\t", $s, 2)` as taken apart by `list()`.
  - `str_repeat`.
- `cache.dfy` (module `Cache`): the `BrowscapCache` calls used here.
  - `hasItem`.
  - `getItem` with its success flag.
  - The cache is a class over a map from key to stored slot, with a ghost log of the keys fetched.
- `log.dfy` (module `Log`): the logger, which carries no state.
- `get_pattern.dfy` (module `ParserHelper`):
  - the pure specification of what `getPatterns` yields (`Patterns`, built from `Probe` and `ScanBucket`);
  - the class `GetPattern`, whose methods `GetPatterns`, `ProbeAll` (outer loop), `ProbeStart` (one probe) and `ScanEntries` (inner loop) run the source's nested loops and are proved equal to that specification.
- `get_pattern_properties.dfy` (module `GetPatternProperties`): what the retriever promises its consumers, proved about the specification.
  - Probe order and the catch-all fallback.
  - The per-bucket filter and its order.
  - Treating every kind of miss the same.
  - The closing empty string.

## Model

| member | source | states |
|---|---|---|
| ParserHelper.GetPattern.constructor | src/Parser/Helper/GetPattern.php:55-62 | a new helper has neither a cache nor a logger |
| ParserHelper.GetPattern.SetCache | src/Parser/Helper/GetPattern.php:81-86 | afterwards `GetCache()` is the given cache, the logger is unchanged, and the helper itself is returned |
| ParserHelper.GetPattern.SetLogger | src/Parser/Helper/GetPattern.php:95-100 | afterwards `GetLogger()` is the given logger, the cache is unchanged, and the helper itself is returned |
| ParserHelper.GetPattern.GetCache | src/Parser/Helper/GetPattern.php:69-72 | `getCache`: the injected cache, as `SetCache` and the constructor state it |
| ParserHelper.GetPattern.GetLogger | src/Parser/Helper/GetPattern.php:107-110 | `getLogger`: the injected logger, as `SetLogger` and the constructor state it |
| ParserHelper.GetPattern.GetPatterns | src/Parser/Helper/GetPattern.php:123-166 | yields exactly `Patterns` of the cache contents; the cache's fetch log grows by exactly `FetchedKeys` of the probed starts, in probe order, and by nothing else |
| ParserHelper.GetPattern.ProbeAll | src/Parser/Helper/GetPattern.php:132-163 | the outer loop yields exactly `Probe` of the starts; the keys passed to `getItem` are exactly `FetchedKeys` of the starts, in order |
| ParserHelper.GetPattern.ProbeStart | src/Parser/Helper/GetPattern.php:133-162 | one start: yields `ScanBucket` of what its shard leaves to scan (nothing on absent key, failed fetch, non-array or empty array); `getItem` is called once for the shard key if the existence check passes and not at all otherwise |
| ParserHelper.GetPattern.ScanEntries | src/Parser/Helper/GetPattern.php:156-162 | the inner loop over a bucket yields exactly `ScanBucket(start, entries)` |
| ParserHelper.ScanBucketAppend | src/Parser/Helper/GetPattern.php:156-161 | scanning a concatenation yields the first part's yields, then the second part's (entries are yielded in stored order) |
| ParserHelper.ProbeAppend | src/Parser/Helper/GetPattern.php:132 | probing a concatenation of starts yields the first list's output, then the second's (starts are probed in order) |
| ParserHelper.FetchedKeysAppend | src/Parser/Helper/GetPattern.php:132-142 | the fetches for a concatenation of starts are those of the first list, then those of the second |
| ParserHelper.Patterns | src/Parser/Helper/GetPattern.php:123-166 | the output is never empty and its last element is the empty string |
| ParserHelper.FetchedKeys | src/Parser/Helper/GetPattern.php:135-142 | at most one fetch per start, and only for keys that exist in the cache |
| Cache.BrowscapCache.HasItem | src/Parser/Helper/GetPattern.php:135 | the existence check: the key is present in the cache |
| Cache.BrowscapCache.GetItem | src/Parser/Helper/GetPattern.php:140-142 | success iff the key is present and readable; on success the stored value, otherwise an unspecified value; the key is appended to the fetch log |
| ParserHelper.Starts | src/Parser/Helper/GetPattern.php:125-128 | the candidate starts: the generator's list, then the catch-all start (properties in `StartsShape`) |
| ParserHelper.ScanBucket | src/Parser/Helper/GetPattern.php:156-161 | the inner loop's yields over one bucket, head first (properties in `ScanBucketAppend`, `ScanBucketMembers`, `ForeignEntriesIgnored`) |
| ParserHelper.Probe | src/Parser/Helper/GetPattern.php:132-163 | the outer loop's yields over a list of starts (properties in `ProbeAppend`, `ProbeMembers`, `OutputGroupedByStart`) |
| GetPatternProperties.ForeignRunYieldsNothing | src/Parser/Helper/GetPattern.php:159 | entries whose text before the first TAB is not the start yield nothing |
| GetPatternProperties.ForeignEntriesIgnored | src/Parser/Helper/GetPattern.php:156-161 | entries of other starts inserted anywhere in a bucket do not change what the start yields from it |
| GetPatternProperties.ScanBucketMembers | src/Parser/Helper/GetPattern.php:156-161 | a bucket yields a payload iff one of its entries is tagged exactly with the start and trims to that payload |
| GetPatternProperties.EncodedEntry | src/Parser/Helper/GetPattern.php:157-160 | an entry `tag TAB pattern` with a tab-free tag yields `trim(pattern)`, later tabs included, iff the tag is the start |
| GetPatternProperties.SharedBucket | src/Parser/Helper/GetPattern.php:156-161 | in a bucket shared with an entry of another start, only the start's own entry is yielded |
| GetPatternProperties.StartsShape | src/Parser/Helper/GetPattern.php:125-128 | the probed starts are the generator's list, unchanged and in order, then 32 'z' characters; one more than the generator's count |
| GetPatternProperties.OutputGroupedByStart | src/Parser/Helper/GetPattern.php:132-163 | for every candidate `i`, the output is what the starts before `i` yield, then what `i` yields, then what the starts after it yield, then "" |
| GetPatternProperties.DefaultProbedLast | src/Parser/Helper/GetPattern.php:127-132 | the catch-all bucket is scanned after every generated start, and only "" follows it |
| GetPatternProperties.ProbeMembers | src/Parser/Helper/GetPattern.php:132-162 | a payload is yielded iff some probed start has an entry in its shard that is tagged with that start and trims to that payload |
| GetPatternProperties.ProbeAllMisses | src/Parser/Helper/GetPattern.php:135-154 | when no start's shard leaves anything to scan, the probes yield nothing |
| GetPatternProperties.AllMissesYieldOnlySentinel | src/Parser/Helper/GetPattern.php:132-165 | when every probe misses, the output is exactly `[""]` |
| GetPatternProperties.EmptyCacheYieldsOnlySentinel | src/Parser/Helper/GetPattern.php:132-165 | with an empty cache the output is exactly `[""]` |
| GetPatternProperties.ProbeSameBuckets | src/Parser/Helper/GetPattern.php:135-154 | the output depends on the cache only through what each key leaves to scan |
| GetPatternProperties.MissKindsInterchangeable | src/Parser/Helper/GetPattern.php:144-154 | storing an unreadable slot, a non-array or an empty array under a key gives the same output as having no entry at that key |
| GetPatternProperties.FetchedKeysExact | src/Parser/Helper/GetPattern.php:135-142 | a key is in `FetchedKeys` (and so, by the contract of `GetPatterns`, passed to `getItem`) iff the key exists and is the shard key of a probed start; a start whose existence check fails causes no fetch |
| GetPatternProperties.ScenarioForeignEntrySkipped | src/Parser/Helper/GetPattern.php:123-166 | one start whose shard also holds another start's entry, and no default shard: the output is the start's trimmed pattern, then "" |
| GetPatternProperties.ScenarioFallBackToDefault | src/Parser/Helper/GetPattern.php:123-166 | one start whose shard is missing, with a default shard: the output is the default pattern, trimmed, then "" |
| GetPatternProperties.YieldedWhateverLength | src/Parser/Helper/GetPattern.php:156-161 | an entry of a probed start is yielded (trimmed) whatever the length of its pattern compared with the user agent |
| GetPatternProperties.LongerThanUserAgentYielded | src/Parser/Helper/GetPattern.php:113-117 | the documented length comparison does not hold: with the empty user agent and a shard entry "a TAB long" for the start "a", a pattern longer than the user agent is yielded |
| PhpStrings.TrimLeftSpec | src/Parser/Helper/GetPattern.php:160 | `ltrim` keeps a suffix, drops only trim characters, and what it keeps does not start with one |
| PhpStrings.TrimRightSpec | src/Parser/Helper/GetPattern.php:160 | `rtrim` keeps a prefix, drops only trim characters, and what it keeps does not end with one |
| PhpStrings.Trim | src/Parser/Helper/GetPattern.php:160 | `trim`: `rtrim` of `ltrim` (properties in `TrimSpec`) |
| PhpStrings.TrimSpec | src/Parser/Helper/GetPattern.php:160 | `trim` returns the factor of its argument whose surroundings are all trim characters; the result neither starts nor ends with one |
| PhpStrings.FirstTabSpec | src/Parser/Helper/GetPattern.php:157 | no tab occurs before the position found, and that position, when inside the string, holds a tab |
| PhpStrings.SplitAtFirstTab | src/Parser/Helper/GetPattern.php:157 | `list($head, $tail) = explode("\t", $s, 2)`, with a missing tail read as "" (properties in `SplitAtFirstTabSpec`, `SplitJoin`) |
| PhpStrings.SplitAtFirstTabSpec | src/Parser/Helper/GetPattern.php:157 | the head holds no tab; with a tab, head + TAB + tail is the entry; without one, the head is the whole entry and the tail is empty |
| PhpStrings.SplitJoin | src/Parser/Helper/GetPattern.php:157 | splitting `head TAB tail` with a tab-free head gives back that head and that tail, later tabs staying in the tail |
| PhpStrings.StrRepeat | src/Parser/Helper/GetPattern.php:128 | `str_repeat(c, n)` has length `n` |
| PhpStrings.StrRepeatSpec | src/Parser/Helper/GetPattern.php:128 | every character of `str_repeat(c, n)` is `c` |

## Left out

- `Pattern::getHashForPattern` and `SubKey::getPatternCacheSubkey` are not part of this model.
  - They are deterministic functions passed in as parameters (`hashForPattern`, `patternCacheSubkey`).
  - Their own behaviour (hashing, subkey length) is not modelled.
- `BrowscapCache` internals are not modelled: storage, serialisation, version scoping, and the `true` scoping flag passed to `hasItem`/`getItem`.
  - The cache is the map of what each key currently holds.
  - `Slot.Unreadable` stands for a key that exists but whose fetch reports failure.
- The logger's debug messages are not recorded; they have no effect on what is yielded.
- The PHP generator's laziness is not modelled. `GetPatterns` returns the whole sequence the generator would yield; a consumer that stops early sees a prefix of it.
  - The source calls `getCache()` again on every probe. A `setCache` call or a cache write made between two yields therefore changes the rest of the stream.
  - The model works from one snapshot of the cache contents, `cache.slots`, taken when the call starts.
- An entry with no TAB:
  - `explode` returns a one-element array, so `list()` assigns null to `$patterns` with an undefined-offset notice, and `trim(null)` is "".
  - The model yields "" for such an entry when the whole entry equals the start.
  - The notice itself is not modelled.
- Strings are sequences of characters. PHP's byte strings and multi-byte encodings are not distinguished; the `trim` character set is " \t\n\r\0\x0B".
- ParserHelper.GetPattern.GetPatterns: the method's doc comment (GetPattern.php:113-117) says patterns longer than the user agent are excluded. The code performs no such length comparison, and the model does not either; `LongerThanUserAgentYielded` shows a yielded pattern longer than the user agent.
- ParserHelper.GetPattern.GetPatterns: requires a cache. Without one, PHP stops with a fatal error at the first existence check, which every call reaches because the catch-all start is always probed. The model does not represent that error.
- ParserHelper.GetPattern.GetPatterns: requires a logger, although the source only calls it on a miss. Without one, PHP stops with a fatal error at the first miss; the model does not represent that error.
- ParserHelper.GetPattern.ProbeAll: requires a cache and a logger, for the same reasons as `GetPatterns`.
- ParserHelper.GetPattern.ProbeStart: requires a cache and a logger, for the same reasons as `GetPatterns`.
- The ghost field `fetchLog` of `BrowscapCache` records every key passed to `getItem`. It is bookkeeping for the proofs, not state the source keeps.
- An entry with no TAB is processed, not rejected (see above); a value that is not a non-empty array is a miss.
- Every element of a bucket array is taken to be a string. In PHP, `explode` would convert an int, float, bool or null element to a string, and an array or object element would raise a warning (PHP 7) or a `TypeError` (PHP 8); neither case is modelled.

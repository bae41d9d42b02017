/** `BrowscapPHP\Parser\Helper\GetPattern`: given a user agent, it streams
    the stored pattern data that could match it, shard by shard, and ends
    with one empty string.

    The two static collaborators, `Pattern::getHashForPattern($ua, true)`
    and `SubKey::getPatternCacheSubkey($start)`, are deterministic functions
    whose code is not part of this model; they are parameters here. The
    PHP generator becomes the whole sequence it would yield; a consumer that
    stops early sees a prefix of it. */
module ParserHelper {
  import opened PhpStrings
  import opened Cache
  import opened Log

  /** Every pattern shard is stored under this prefix followed by its subkey. */
  const PatternKeyPrefix: string := "browscap.patterns."

  /** `str_repeat('z', 32)`: the start of the catch-all default bucket. */
  const DefaultStart: string := StrRepeat('z', 32)

  /** The candidate starts probed for a user agent, in probe order: the
      generator's list as it is, then the default start. */
  function Starts(hashForPattern: string -> seq<string>, userAgent: string): seq<string>
  {
    hashForPattern(userAgent) + [DefaultStart]
  }

  /** The cache key of the shard that holds the entries of `start`. */
  function ShardKey(patternCacheSubkey: string -> string, start: string): string
  {
    PatternKeyPrefix + patternCacheSubkey(start)
  }

  /** The entries a probe of `key` scans. The three ways a probe can come
      back empty-handed (the key is absent, the fetch fails, the value is
      not a non-empty array) all leave nothing to scan. */
  function BucketAt(slots: map<string, Slot>, key: string): seq<string>
  {
    if key !in slots then []
    else match slots[key]
      case Unreadable => []
      case Stored(NotArray) => []
      case Stored(Array(entries)) => entries
  }

  /** The entries scanned when probing `start`. */
  function BucketFor(slots: map<string, Slot>, patternCacheSubkey: string -> string, start: string): seq<string>
  {
    BucketAt(slots, ShardKey(patternCacheSubkey, start))
  }

  /** An entry belongs to `start` when its text before the first tab is
      exactly `start`. */
  predicate Matches(start: string, entry: string)
  {
    SplitAtFirstTab(entry).0 == start
  }

  /** What an entry yields: its text after the first tab, trimmed. */
  function PayloadOf(entry: string): string
  {
    Trim(SplitAtFirstTab(entry).1)
  }

  /** What one entry contributes while `start` is probed: its payload when
      it belongs to `start`, nothing otherwise. */
  function EntryYield(start: string, entry: string): seq<string>
  {
    if Matches(start, entry) then [PayloadOf(entry)] else []
  }

  /** The inner loop over one bucket: the payload of every entry of `start`,
      in stored order. */
  function ScanBucket(start: string, entries: seq<string>): seq<string>
  {
    if entries == [] then []
    else EntryYield(start, entries[0]) + ScanBucket(start, entries[1..])
  }

  /** Scanning a bucket is scanning its two halves one after the other:
      matching entries are yielded in stored order. */
  lemma {:induction false} ScanBucketAppend(start: string, first: seq<string>, second: seq<string>)
    ensures ScanBucket(start, first + second) == ScanBucket(start, first) + ScanBucket(start, second)
  {
    if first == [] {
      assert first + second == second;
    } else {
      var head := EntryYield(start, first[0]);
      assert (first + second)[0] == first[0];
      assert (first + second)[1..] == first[1..] + second;
      ScanBucketAppend(start, first[1..], second);
      assert head + (ScanBucket(start, first[1..]) + ScanBucket(start, second)) ==
             (head + ScanBucket(start, first[1..])) + ScanBucket(start, second);
    }
  }

  /** The outer loop: each start's bucket scanned in turn. */
  function Probe(slots: map<string, Slot>, patternCacheSubkey: string -> string, starts: seq<string>): seq<string>
  {
    if starts == [] then []
    else ScanBucket(starts[0], BucketFor(slots, patternCacheSubkey, starts[0]))
         + Probe(slots, patternCacheSubkey, starts[1..])
  }

  /** Probing a list of starts is probing its two halves one after the
      other: every yield of an earlier start comes before any of a later one. */
  lemma {:induction false} ProbeAppend(slots: map<string, Slot>, patternCacheSubkey: string -> string,
                                       first: seq<string>, second: seq<string>)
    ensures Probe(slots, patternCacheSubkey, first + second) ==
            Probe(slots, patternCacheSubkey, first) + Probe(slots, patternCacheSubkey, second)
  {
    if first == [] {
      assert first + second == second;
    } else {
      assert (first + second)[1..] == first[1..] + second;
      ProbeAppend(slots, patternCacheSubkey, first[1..], second);
    }
  }

  /** The same for the keys handed to `getItem`. */
  lemma {:induction false} FetchedKeysAppend(slots: map<string, Slot>, patternCacheSubkey: string -> string,
                                             first: seq<string>, second: seq<string>)
    ensures FetchedKeys(slots, patternCacheSubkey, first + second) ==
            FetchedKeys(slots, patternCacheSubkey, first) + FetchedKeys(slots, patternCacheSubkey, second)
  {
    if first == [] {
      assert first + second == second;
    } else {
      assert (first + second)[1..] == first[1..] + second;
      FetchedKeysAppend(slots, patternCacheSubkey, first[1..], second);
    }
  }

  /** Everything `getPatterns` yields for `userAgent`: the probes of all
      candidate starts, then the empty string that ends the stream. */
  function Patterns(slots: map<string, Slot>, hashForPattern: string -> seq<string>,
                    patternCacheSubkey: string -> string, userAgent: string): (r: seq<string>)
    ensures |r| >= 1 && r[|r| - 1] == ""
  {
    Probe(slots, patternCacheSubkey, Starts(hashForPattern, userAgent)) + [""]
  }

  /** The keys `getItem` is asked for while probing `starts`, in order: one
      per start whose shard key passes the existence check. */
  function FetchedKeys(slots: map<string, Slot>, patternCacheSubkey: string -> string, starts: seq<string>): (r: seq<string>)
    ensures |r| <= |starts|
    ensures forall k :: 0 <= k < |r| ==> r[k] in slots
  {
    if starts == [] then []
    else (var key := ShardKey(patternCacheSubkey, starts[0]);
          if key in slots then [key] else [])
         + FetchedKeys(slots, patternCacheSubkey, starts[1..])
  }

  class GetPattern {
    var cache: BrowscapCache?
    var logger: Logger?

    /** A fresh helper has neither a cache nor a logger yet. */
    constructor ()
      ensures cache == null && logger == null
    {
      cache := null;
      logger := null;
    }

    function GetCache(): BrowscapCache?
      reads this
    {
      cache
    }

    /** Injects the cache; returns the helper itself for chaining. */
    method SetCache(cache: BrowscapCache) returns (self: GetPattern)
      modifies this`cache
      ensures GetCache() == cache
      ensures GetLogger() == old(GetLogger())
      ensures self == this
    {
      this.cache := cache;
      self := this;
    }

    function GetLogger(): Logger?
      reads this
    {
      logger
    }

    /** Injects the logger; returns the helper itself for chaining. */
    method SetLogger(logger: Logger) returns (self: GetPattern)
      modifies this`logger
      ensures GetLogger() == logger
      ensures GetCache() == old(GetCache())
      ensures self == this
    {
      this.logger := logger;
      self := this;
    }

    /** The inner `foreach` of `getPatterns` over one fetched bucket: what
        it yields, in stored order. */
    static method ScanEntries(tmpStart: string, entries: seq<string>) returns (yielded: seq<string>)
      ensures yielded == ScanBucket(tmpStart, entries)
    {
      yielded := [];
      for j := 0 to |entries|
        invariant yielded == ScanBucket(tmpStart, entries[..j])
      {
        var (tmpBuffer, tail) := SplitAtFirstTab(entries[j]);
        assert entries[..j + 1] == entries[..j] + [entries[j]];
        ScanBucketAppend(tmpStart, entries[..j], [entries[j]]);
        assert ScanBucket(tmpStart, [entries[j]]) == if tmpBuffer == tmpStart then [Trim(tail)] else [] by {
          assert [entries[j]][1..] == [];
        }
        if tmpBuffer == tmpStart {
          yielded := yielded + [Trim(tail)];
        }
      }
      assert entries[..|entries|] == entries;
    }

    /** One pass of the outer `foreach` of `getPatterns`: probes the shard
        of `tmpStart` and returns what it yields. `getItem` is called, once,
        exactly when the existence check passes. */
    method ProbeStart(tmpStart: string, patternCacheSubkey: string -> string)
      returns (yielded: seq<string>)
      requires cache != null && logger != null
      modifies cache`fetchLog
      ensures yielded == ScanBucket(tmpStart, BucketFor(cache.slots, patternCacheSubkey, tmpStart))
      ensures cache.fetchLog == old(cache.fetchLog) + FetchedKeys(cache.slots, patternCacheSubkey, [tmpStart])
    {
      var tmpSubkey := patternCacheSubkey(tmpStart);
      var key := PatternKeyPrefix + tmpSubkey;
      yielded := [];
      assert [tmpStart][1..] == [];

      if !GetCache().HasItem(key) {
        return;
      }
      var file, success := GetCache().GetItem(key);

      if !success {
        return;
      }
      if !file.Array? || |file.entries| == 0 {
        return;
      }
      yielded := ScanEntries(tmpStart, file.entries);
    }

    /** The outer `foreach` of `getPatterns` over the candidate starts: what
        it yields, and the keys it fetches, in probe order. */
    method ProbeAll(starts: seq<string>, patternCacheSubkey: string -> string)
      returns (patterns: seq<string>)
      requires cache != null && logger != null
      modifies cache`fetchLog
      ensures patterns == Probe(cache.slots, patternCacheSubkey, starts)
      ensures cache.fetchLog == old(cache.fetchLog) + FetchedKeys(cache.slots, patternCacheSubkey, starts)
    {
      ghost var slots := cache.slots;
      ghost var log0 := cache.fetchLog;

      patterns := [];
      for i := 0 to |starts|
        invariant cache.slots == slots
        invariant patterns == Probe(slots, patternCacheSubkey, starts[..i])
        invariant cache.fetchLog == log0 + FetchedKeys(slots, patternCacheSubkey, starts[..i])
      {
        var tmpStart := starts[i];
        var yielded := ProbeStart(tmpStart, patternCacheSubkey);

        assert starts[..i + 1] == starts[..i] + [tmpStart];
        ProbeAppend(slots, patternCacheSubkey, starts[..i], [tmpStart]);
        FetchedKeysAppend(slots, patternCacheSubkey, starts[..i], [tmpStart]);
        patterns := patterns + yielded;
      }
      assert starts[..|starts|] == starts;
    }

    /** `getPatterns($userAgent)`, run to the end. The cache's fetch log
        grows by exactly the keys `FetchedKeys` lists, in probe order. */
    method GetPatterns(userAgent: string, hashForPattern: string -> seq<string>,
                       patternCacheSubkey: string -> string)
      returns (patterns: seq<string>)
      requires cache != null && logger != null
      modifies cache`fetchLog
      ensures patterns == Patterns(cache.slots, hashForPattern, patternCacheSubkey, userAgent)
      ensures cache.fetchLog ==
              old(cache.fetchLog) + FetchedKeys(cache.slots, patternCacheSubkey, Starts(hashForPattern, userAgent))
    {
      var starts := hashForPattern(userAgent);
      starts := starts + [StrRepeat('z', 32)];
      assert starts == Starts(hashForPattern, userAgent);

      patterns := ProbeAll(starts, patternCacheSubkey);
      patterns := patterns + [""];
    }
  }
}

/** What `getPatterns` promises its consumers, proved about the
    specification functions that `GetPattern.GetPatterns` is shown to
    compute: the probe order, the per-bucket filter and its order, the
    catch-all fallback, the uniform treatment of every kind of miss, and
    the closing empty string. */
module GetPatternProperties {
  import opened PhpStrings
  import opened Cache
  import opened ParserHelper

  /** `entry` is stored for `start` and yields `payload`. */
  predicate EntryYields(start: string, entry: string, payload: string)
  {
    Matches(start, entry) && PayloadOf(entry) == payload
  }

  // ---------------------------------------------------------------------
  // One bucket

  /** A run of entries stored for other starts yields nothing. */
  lemma {:induction false} ForeignRunYieldsNothing(start: string, foreign: seq<string>)
    requires forall k :: 0 <= k < |foreign| ==> !Matches(start, foreign[k])
    ensures ScanBucket(start, foreign) == []
  {
    if foreign != [] {
      ForeignRunYieldsNothing(start, foreign[1..]);
    }
  }

  /** Entries of other starts interleaved in a bucket change nothing about
      what `start` yields from it. */
  lemma ForeignEntriesIgnored(start: string, before: seq<string>, foreign: seq<string>, after: seq<string>)
    requires forall k :: 0 <= k < |foreign| ==> !Matches(start, foreign[k])
    ensures ScanBucket(start, before + foreign + after) == ScanBucket(start, before + after)
  {
    ForeignRunYieldsNothing(start, foreign);
    ScanBucketAppend(start, before + foreign, after);
    ScanBucketAppend(start, before, foreign);
    ScanBucketAppend(start, before, after);
  }

  /** A bucket yields `payload` exactly when one of its entries is stored
      for `start` and carries `payload`. */
  lemma {:induction false} ScanBucketMembers(start: string, entries: seq<string>, payload: string)
    ensures payload in ScanBucket(start, entries) <==>
            exists j :: 0 <= j < |entries| && EntryYields(start, entries[j], payload)
  {
    if entries != [] {
      ScanBucketMembers(start, entries[1..], payload);
      if payload in ScanBucket(start, entries[1..]) {
        var j :| 0 <= j < |entries[1..]| && EntryYields(start, entries[1..][j], payload);
        assert EntryYields(start, entries[j + 1], payload);
      }
      if exists j :: 0 <= j < |entries| && EntryYields(start, entries[j], payload) {
        var j :| 0 <= j < |entries| && EntryYields(start, entries[j], payload);
        if j > 0 {
          assert EntryYields(start, entries[1..][j - 1], payload);
        }
      }
    }
  }

  /** An entry written as `tag TAB pattern` with a tab-free tag yields the
      trimmed pattern, later tabs included, when the tag is the probed
      start, and nothing otherwise. */
  lemma EncodedEntry(start: string, tag: string, pattern: string)
    requires '\t' !in tag
    ensures ScanBucket(start, [tag + "\t" + pattern]) ==
            if tag == start then [Trim(pattern)] else []
  {
    SplitJoin(tag, pattern);
  }

  // ---------------------------------------------------------------------
  // The candidate list

  /** The starts probed are the generator's, unchanged and in order, then
      the 32-character catch-all start of 'z's. */
  lemma StartsShape(hashForPattern: string -> seq<string>, userAgent: string)
    ensures |Starts(hashForPattern, userAgent)| == |hashForPattern(userAgent)| + 1
    ensures Starts(hashForPattern, userAgent)[..|hashForPattern(userAgent)|] == hashForPattern(userAgent)
    ensures Starts(hashForPattern, userAgent)[|hashForPattern(userAgent)|] == DefaultStart
    ensures |DefaultStart| == 32 && forall k :: 0 <= k < 32 ==> DefaultStart[k] == 'z'
  {
    StrRepeatSpec('z', 32);
  }

  /** The output is grouped by start in probe order: whatever start `i`
      yields comes after everything the starts before it yield and before
      everything the starts after it yield. */
  lemma OutputGroupedByStart(slots: map<string, Slot>, hashForPattern: string -> seq<string>,
                             patternCacheSubkey: string -> string, userAgent: string, i: nat)
    requires i < |Starts(hashForPattern, userAgent)|
    ensures var starts := Starts(hashForPattern, userAgent);
            Patterns(slots, hashForPattern, patternCacheSubkey, userAgent) ==
            Probe(slots, patternCacheSubkey, starts[..i])
            + ScanBucket(starts[i], BucketFor(slots, patternCacheSubkey, starts[i]))
            + Probe(slots, patternCacheSubkey, starts[i + 1..])
            + [""]
  {
    var starts := Starts(hashForPattern, userAgent);
    var before, here, after := starts[..i], [starts[i]], starts[i + 1..];
    assert starts == before + here + after;
    ProbeAppend(slots, patternCacheSubkey, before + here, after);
    ProbeAppend(slots, patternCacheSubkey, before, here);
    assert Probe(slots, patternCacheSubkey, here) ==
           ScanBucket(starts[i], BucketFor(slots, patternCacheSubkey, starts[i]));
  }

  /** The catch-all bucket is probed last, after every generated start,
      and only the closing empty string follows it. */
  lemma DefaultProbedLast(slots: map<string, Slot>, hashForPattern: string -> seq<string>,
                          patternCacheSubkey: string -> string, userAgent: string)
    ensures Patterns(slots, hashForPattern, patternCacheSubkey, userAgent) ==
            Probe(slots, patternCacheSubkey, hashForPattern(userAgent))
            + ScanBucket(DefaultStart, BucketFor(slots, patternCacheSubkey, DefaultStart))
            + [""]
  {
    ProbeAppend(slots, patternCacheSubkey, hashForPattern(userAgent), [DefaultStart]);
  }

  /** The output yields `payload` (before its closing empty string) exactly
      when some probed start has an entry in its bucket that is stored for
      it and carries `payload`. */
  lemma {:induction false} ProbeMembers(slots: map<string, Slot>, patternCacheSubkey: string -> string,
                                        starts: seq<string>, payload: string)
    ensures payload in Probe(slots, patternCacheSubkey, starts) <==>
            exists i, j :: 0 <= i < |starts| && 0 <= j < |BucketFor(slots, patternCacheSubkey, starts[i])|
                           && EntryYields(starts[i], BucketFor(slots, patternCacheSubkey, starts[i])[j], payload)
  {
    if starts != [] {
      var bucket := BucketFor(slots, patternCacheSubkey, starts[0]);
      ScanBucketMembers(starts[0], bucket, payload);
      ProbeMembers(slots, patternCacheSubkey, starts[1..], payload);
      if payload in Probe(slots, patternCacheSubkey, starts[1..]) {
        var i, j :| 0 <= i < |starts[1..]| && 0 <= j < |BucketFor(slots, patternCacheSubkey, starts[1..][i])|
                    && EntryYields(starts[1..][i], BucketFor(slots, patternCacheSubkey, starts[1..][i])[j], payload);
        assert starts[1..][i] == starts[i + 1];
      }
      if payload in ScanBucket(starts[0], bucket) {
        var j :| 0 <= j < |bucket| && EntryYields(starts[0], bucket[j], payload);
        assert EntryYields(starts[0], BucketFor(slots, patternCacheSubkey, starts[0])[j], payload);
      }
      if exists i, j :: 0 <= i < |starts| && 0 <= j < |BucketFor(slots, patternCacheSubkey, starts[i])|
                        && EntryYields(starts[i], BucketFor(slots, patternCacheSubkey, starts[i])[j], payload) {
        var i, j :| 0 <= i < |starts| && 0 <= j < |BucketFor(slots, patternCacheSubkey, starts[i])|
                    && EntryYields(starts[i], BucketFor(slots, patternCacheSubkey, starts[i])[j], payload);
        if i > 0 {
          assert starts[1..][i - 1] == starts[i];
          assert EntryYields(starts[1..][i - 1], BucketFor(slots, patternCacheSubkey, starts[1..][i - 1])[j], payload);
        }
      }
    }
  }

  // ---------------------------------------------------------------------
  // Misses

  /** When no probed start finds anything to scan, nothing is yielded. */
  lemma {:induction false} ProbeAllMisses(slots: map<string, Slot>, patternCacheSubkey: string -> string,
                                          starts: seq<string>)
    requires forall k :: 0 <= k < |starts| ==> BucketFor(slots, patternCacheSubkey, starts[k]) == []
    ensures Probe(slots, patternCacheSubkey, starts) == []
  {
    if starts != [] {
      assert BucketFor(slots, patternCacheSubkey, starts[0]) == [];
      ProbeAllMisses(slots, patternCacheSubkey, starts[1..]);
    }
  }

  /** When every probe misses (key absent, fetch failed, value not a
      non-empty array), the output is the closing empty string alone. */
  lemma AllMissesYieldOnlySentinel(slots: map<string, Slot>, hashForPattern: string -> seq<string>,
                                   patternCacheSubkey: string -> string, userAgent: string)
    requires forall k :: 0 <= k < |Starts(hashForPattern, userAgent)| ==>
               BucketFor(slots, patternCacheSubkey, Starts(hashForPattern, userAgent)[k]) == []
    ensures Patterns(slots, hashForPattern, patternCacheSubkey, userAgent) == [""]
  {
    ProbeAllMisses(slots, patternCacheSubkey, Starts(hashForPattern, userAgent));
  }

  /** With an empty cache the output is exactly `[""]`. */
  lemma EmptyCacheYieldsOnlySentinel(hashForPattern: string -> seq<string>,
                                     patternCacheSubkey: string -> string, userAgent: string)
    ensures Patterns(map[], hashForPattern, patternCacheSubkey, userAgent) == [""]
  {
    AllMissesYieldOnlySentinel(map[], hashForPattern, patternCacheSubkey, userAgent);
  }

  /** Probing depends on the cache only through what each key leaves to
      scan. */
  lemma {:induction false} ProbeSameBuckets(slots: map<string, Slot>, other: map<string, Slot>,
                                            patternCacheSubkey: string -> string, starts: seq<string>)
    requires forall key :: BucketAt(slots, key) == BucketAt(other, key)
    ensures Probe(slots, patternCacheSubkey, starts) == Probe(other, patternCacheSubkey, starts)
  {
    if starts != [] {
      ProbeSameBuckets(slots, other, patternCacheSubkey, starts[1..]);
    }
  }

  /** A failed fetch, a value that is not an array and an empty array are
      all treated exactly as a missing key: putting any of them under a key
      yields the same output as having no entry there at all. */
  lemma MissKindsInterchangeable(slots: map<string, Slot>, key: string, slot: Slot,
                                 hashForPattern: string -> seq<string>,
                                 patternCacheSubkey: string -> string, userAgent: string)
    requires slot == Unreadable || slot == Stored(NotArray) || slot == Stored(Array([]))
    ensures Patterns(slots[key := slot], hashForPattern, patternCacheSubkey, userAgent) ==
            Patterns(slots - {key}, hashForPattern, patternCacheSubkey, userAgent)
  {
    forall k
      ensures BucketAt(slots[key := slot], k) == BucketAt(slots - {key}, k)
    {
    }
    ProbeSameBuckets(slots[key := slot], slots - {key}, patternCacheSubkey, Starts(hashForPattern, userAgent));
  }

  // ---------------------------------------------------------------------
  // Fetches

  /** `getItem` is asked for a key exactly when the key exists and belongs
      to a probed start: a start whose key fails the existence check causes
      no fetch. */
  lemma {:induction false} FetchedKeysExact(slots: map<string, Slot>, patternCacheSubkey: string -> string,
                                            starts: seq<string>, key: string)
    ensures key in FetchedKeys(slots, patternCacheSubkey, starts) <==>
            key in slots && exists i :: 0 <= i < |starts| && ShardKey(patternCacheSubkey, starts[i]) == key
  {
    if starts != [] {
      FetchedKeysExact(slots, patternCacheSubkey, starts[1..], key);
      if exists i :: 0 <= i < |starts[1..]| && ShardKey(patternCacheSubkey, starts[1..][i]) == key {
        var i :| 0 <= i < |starts[1..]| && ShardKey(patternCacheSubkey, starts[1..][i]) == key;
        assert ShardKey(patternCacheSubkey, starts[i + 1]) == key;
      }
      if exists i :: 0 <= i < |starts| && ShardKey(patternCacheSubkey, starts[i]) == key {
        var i :| 0 <= i < |starts| && ShardKey(patternCacheSubkey, starts[i]) == key;
        if i > 0 {
          assert ShardKey(patternCacheSubkey, starts[1..][i - 1]) == key;
        }
      }
    }
  }

  // ---------------------------------------------------------------------
  // Worked scenarios

  /** A bucket holding an entry of `start` followed by an entry of another
      start yields, for `start`, the first entry's trimmed pattern only. */
  lemma SharedBucket(start: string, other: string, pattern: string, otherPattern: string)
    requires '\t' !in start && '\t' !in other && other != start
    ensures ScanBucket(start, [start + "\t" + pattern, other + "\t" + otherPattern]) == [Trim(pattern)]
  {
    var first, second := start + "\t" + pattern, other + "\t" + otherPattern;
    EncodedEntry(start, start, pattern);
    EncodedEntry(start, other, otherPattern);
    ScanBucketAppend(start, [first], [second]);
    assert [first] + [second] == [first, second];
  }

  /** One generated start whose shard also holds an entry of another
      start, and no default shard: the output is the trimmed pattern of the
      generated start, then "". */
  lemma ScenarioForeignEntrySkipped(slots: map<string, Slot>, hashForPattern: string -> seq<string>,
                                    patternCacheSubkey: string -> string, userAgent: string,
                                    start: string, other: string, pattern: string, otherPattern: string)
    requires hashForPattern(userAgent) == [start]
    requires '\t' !in start && '\t' !in other && other != start
    requires ShardKey(patternCacheSubkey, start) in slots
    requires slots[ShardKey(patternCacheSubkey, start)] ==
             Stored(Array([start + "\t" + pattern, other + "\t" + otherPattern]))
    requires ShardKey(patternCacheSubkey, DefaultStart) !in slots
    ensures Patterns(slots, hashForPattern, patternCacheSubkey, userAgent) == [Trim(pattern), ""]
  {
    var first, second := start + "\t" + pattern, other + "\t" + otherPattern;
    SharedBucket(start, other, pattern, otherPattern);
    assert BucketFor(slots, patternCacheSubkey, start) == [first, second];
    assert [start][1..] == [];
    assert Probe(slots, patternCacheSubkey, [start]) == [Trim(pattern)];
    assert BucketFor(slots, patternCacheSubkey, DefaultStart) == [];
    DefaultProbedLast(slots, hashForPattern, patternCacheSubkey, userAgent);
  }

  /** The one generated start's shard is missing and the default shard
      holds a default pattern: the output is that pattern, trimmed, then "". */
  lemma ScenarioFallBackToDefault(slots: map<string, Slot>, hashForPattern: string -> seq<string>,
                                  patternCacheSubkey: string -> string, userAgent: string,
                                  start: string, pattern: string)
    requires hashForPattern(userAgent) == [start]
    requires ShardKey(patternCacheSubkey, start) !in slots
    requires ShardKey(patternCacheSubkey, DefaultStart) in slots
    requires slots[ShardKey(patternCacheSubkey, DefaultStart)] == Stored(Array([DefaultStart + "\t" + pattern]))
    ensures Patterns(slots, hashForPattern, patternCacheSubkey, userAgent) == [Trim(pattern), ""]
  {
    StartsShape(hashForPattern, userAgent);
    assert '\t' !in DefaultStart;
    var entry := DefaultStart + "\t" + pattern;
    assert BucketFor(slots, patternCacheSubkey, DefaultStart) == [entry];
    EncodedEntry(DefaultStart, DefaultStart, pattern);
    assert ScanBucket(DefaultStart, [entry]) == [Trim(pattern)];
    assert BucketFor(slots, patternCacheSubkey, start) == [];
    assert [start][1..] == [];
    assert Probe(slots, patternCacheSubkey, [start]) == [];
    DefaultProbedLast(slots, hashForPattern, patternCacheSubkey, userAgent);
  }

  // ---------------------------------------------------------------------
  // Length of what is yielded

  /** An entry of a probed start is yielded whatever the length of its
      pattern: nothing compares it with the length of the user agent. */
  lemma YieldedWhateverLength(slots: map<string, Slot>, hashForPattern: string -> seq<string>,
                              patternCacheSubkey: string -> string, userAgent: string,
                              start: string, pattern: string)
    requires hashForPattern(userAgent) == [start]
    requires '\t' !in start
    requires ShardKey(patternCacheSubkey, start) in slots
    requires slots[ShardKey(patternCacheSubkey, start)] == Stored(Array([start + "\t" + pattern]))
    ensures Trim(pattern) in Patterns(slots, hashForPattern, patternCacheSubkey, userAgent)
  {
    StartsShape(hashForPattern, userAgent);
    assert BucketFor(slots, patternCacheSubkey, start) == [start + "\t" + pattern];
    EncodedEntry(start, start, pattern);
    OutputGroupedByStart(slots, hashForPattern, patternCacheSubkey, userAgent, 0);
  }

  /** A pattern longer than the user agent is yielded: with the empty user
      agent, the start "a" and the shard entry "a TAB long", the output
      holds "long". */
  lemma LongerThanUserAgentYielded(slots: map<string, Slot>, hashForPattern: string -> seq<string>,
                                   patternCacheSubkey: string -> string)
    requires hashForPattern("") == ["a"]
    requires slots == map[ShardKey(patternCacheSubkey, "a") := Stored(Array(["a\tlong"]))]
    ensures exists p :: p in Patterns(slots, hashForPattern, patternCacheSubkey, "") && |p| > |""|
  {
    assert "a\tlong" == "a" + "\t" + "long";
    YieldedWhateverLength(slots, hashForPattern, patternCacheSubkey, "", "a", "long");
    assert Trim("long") == "long";
  }
}

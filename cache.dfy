/** The part of `BrowscapPHP\Cache\BrowscapCache` the pattern retriever
    uses: an existence check and a fetch that reports success separately.
    Storage, serialisation and the version-scoping flag are not modelled;
    the cache is the map of what each key currently holds. */
module Cache {

  /** What a successful fetch hands back. A pattern shard is meant to be a
      PHP array of `prefix TAB pattern` strings; anything else the store may
      return (a scalar, an object, null) is `NotArray`. */
  datatype Value = NotArray | Array(entries: seq<string>)

  /** What is stored under a key: either something the fetch cannot read
      back (it reports failure) or a value. */
  datatype Slot = Unreadable | Stored(value: Value)

  class BrowscapCache {
    var slots: map<string, Slot>
    /** Every key passed to `getItem` so far, in call order. */
    ghost var fetchLog: seq<string>

    constructor (slots: map<string, Slot>)
      ensures this.slots == slots && fetchLog == []
    {
      this.slots := slots;
      fetchLog := [];
    }

    /** `hasItem($key, true)`. */
    predicate HasItem(key: string)
      reads this
    {
      key in slots
    }

    /** `getItem($key, true, $success)`: the value and the success flag.
        What a failed fetch returns is left unspecified; this model happens
        to return `NotArray`, and callers must rely on the flag. Every call
        is recorded in `fetchLog`. */
    method GetItem(key: string) returns (value: Value, success: bool)
      modifies this`fetchLog
      ensures fetchLog == old(fetchLog) + [key]
      ensures success <==> key in slots && slots[key].Stored?
      ensures success ==> value == slots[key].value
    {
      fetchLog := fetchLog + [key];
      if key in slots && slots[key].Stored? {
        value, success := slots[key].value, true;
      } else {
        value, success := NotArray, false;
      }
    }
  }
}

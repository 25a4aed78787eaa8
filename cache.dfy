/**
 * The key/value cache `cache_db` that the authentication code of
 * pritunl/utils.py consults: string values, lists of strings, and a
 * time-to-live per key. Its implementation is not part of this model; the
 * class states the five calls the code makes, plus the lapse of a TTL.
 */
module Cache {
  /** A cached value: a plain string (`set`) or a list (`list_rpush`). */
  datatype Entry = Text(value: string) | List(items: seq<string>)

  /** One write the code issued, in the order issued. */
  datatype Write = SetWrite(key: string) | ExpireWrite(key: string, seconds: nat) | PushWrite(key: string)

  /** The list stored under `key`; a missing key (or a plain value) reads as the empty list. */
  function ListItems(entries: map<string, Entry>, key: string): seq<string> {
    if key in entries && entries[key].List? then entries[key].items else []
  }

  class CacheDb {
    /**
     * True when a TTL belongs to an existing key, as in Redis: `expire` on an
     * absent key does nothing and `set` drops the key's TTL. False for a store
     * that records TTLs by name and keeps them across `set`.
     */
    const keyedTtl: bool
    var entries: map<string, Entry>
    var ttl: map<string, nat>
    var writes: seq<Write>

    predicate Valid()
      reads this
    {
      keyedTtl ==> ttl.Keys <= entries.Keys
    }

    constructor (keyedTtl: bool)
      ensures this.keyedTtl == keyedTtl
      ensures entries == map[] && ttl == map[] && writes == []
      ensures Valid()
    {
      this.keyedTtl := keyedTtl;
      entries := map[];
      ttl := map[];
      writes := [];
    }

    /** `exists(key)`. */
    method Exists(key: string) returns (b: bool)
      ensures b <==> key in entries
    {
      b := key in entries;
    }

    /** `list_length(key)`: 0 for a missing key. */
    method ListLength(key: string) returns (n: nat)
      ensures n == |ListItems(entries, key)|
      ensures key !in entries ==> n == 0
    {
      n := |ListItems(entries, key)|;
    }

    /** `set(key, value)`. */
    method Set(key: string, value: string)
      requires Valid()
      modifies this
      ensures Valid()
      ensures entries == old(entries)[key := Text(value)]
      ensures ttl == if keyedTtl then old(ttl) - {key} else old(ttl)
      ensures writes == old(writes) + [SetWrite(key)]
    {
      entries := entries[key := Text(value)];
      if keyedTtl {
        ttl := ttl - {key};
      }
      writes := writes + [SetWrite(key)];
    }

    /** `expire(key, seconds)`. */
    method Expire(key: string, seconds: nat)
      requires Valid()
      modifies this
      ensures Valid()
      ensures entries == old(entries)
      ensures ttl == if keyedTtl && key !in old(entries) then old(ttl) else old(ttl)[key := seconds]
      ensures writes == old(writes) + [ExpireWrite(key, seconds)]
    {
      if !keyedTtl || key in entries {
        ttl := ttl[key := seconds];
      }
      writes := writes + [ExpireWrite(key, seconds)];
    }

    /** `list_rpush(key, value)`: append to the list, creating it when missing. */
    method ListRPush(key: string, value: string)
      requires Valid()
      modifies this
      ensures Valid()
      ensures entries == old(entries)[key := List(ListItems(old(entries), key) + [value])]
      ensures ttl == old(ttl)
      ensures writes == old(writes) + [PushWrite(key)]
    {
      entries := entries[key := List(ListItems(entries, key) + [value])];
      writes := writes + [PushWrite(key)];
    }

    /** The TTL of `key` runs out: the key and its TTL are gone. */
    method Lapse(key: string)
      requires Valid() && key in ttl
      modifies this
      ensures Valid()
      ensures entries == old(entries) - {key}
      ensures ttl == old(ttl) - {key}
      ensures writes == old(writes)
    {
      entries := entries - {key};
      ttl := ttl - {key};
    }
  }
}

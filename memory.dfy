/** The in-process cache backend: one table shared by every cache object,
    mapping a key to its data and the second at which the entry expires.
    The current time, a clock reading in the original, is a parameter. */
module MemoryCache {
  import opened RubyValues

  /** The class-level table every cache object reads and writes. */
  class Table<T> {
    var entries: map<string, (T, int)>

    constructor ()
      ensures entries == map[]
    {
      entries := map[];
    }
  }

  /** What a read at second now finds: the data of an entry whose expiry
      has not passed. An entry expiring at second exp is still live at exp. */
  function Lookup<T>(entries: map<string, (T, int)>, key: string, now: int): (r: Option<T>)
    ensures r.Some? <==> key in entries && now <= entries[key].1
    ensures r.Some? ==> r.value == entries[key].0
  {
    if key in entries && now <= entries[key].1 then Some(entries[key].0) else None
  }

  /** A cache object. Objects made over the same table see each other's
      writes, as the original's class variable makes them. */
  class Memory<T> {
    const table: Table<T>

    constructor (table: Table<T>)
      ensures this.table == table
    {
      this.table := table;
    }

    /** get: the data while the entry is live, nothing once it has expired
        or when there is no entry; the table is left as it is. */
    method Get(key: string, now: int) returns (r: Option<T>)
      ensures r.Some? <==> key in table.entries && now <= table.entries[key].1
      ensures r.Some? ==> r.value == table.entries[key].0
    {
      if key !in table.entries {
        return None;
      }
      var (data, exp) := table.entries[key];
      if now > exp {
        return None;
      }
      r := Some(data);
    }

    /** set: stores the data with expiry now + ttl, replacing any earlier
        entry for the key, and answers true. */
    method Set(key: string, data: T, ttl: int, now: int) returns (ok: bool)
      modifies table
      ensures ok
      ensures table.entries == old(table.entries)[key := (data, now + ttl)]
    {
      table.entries := table.entries[key := (data, now + ttl)];
      ok := true;
    }

    /** del: removes the key, present or not, and answers true. */
    method Del(key: string) returns (ok: bool)
      modifies table
      ensures ok
      ensures table.entries == old(table.entries) - {key}
    {
      table.entries := table.entries - {key};
      ok := true;
    }

    /** flush: a fresh, empty table, and true. */
    method Flush() returns (ok: bool)
      modifies table
      ensures ok
      ensures table.entries == map[]
    {
      table.entries := map[];
      ok := true;
    }
  }

  // ------------------------------------------------------------------ lemmas

  /** After a set, a read of the key finds the data up to and including
      second now + ttl, and nothing after it. */
  lemma SetThenGet<T>(entries: map<string, (T, int)>, key: string, data: T, ttl: int, now: int, later: int)
    ensures Lookup(entries[key := (data, now + ttl)], key, later) ==
            (if later <= now + ttl then Some(data) else None)
  {
  }

  /** A set leaves every other key as it reads. */
  lemma SetKeepsOthers<T>(entries: map<string, (T, int)>, key: string, data: T, ttl: int, now: int,
                          other: string, at: int)
    requires other != key
    ensures Lookup(entries[key := (data, now + ttl)], other, at) == Lookup(entries, other, at)
  {
  }

  /** A second set replaces the first, whatever their expiries. */
  lemma SetOverwrites<T>(entries: map<string, (T, int)>, key: string, d1: T, t1: int, d2: T, t2: int)
    ensures entries[key := (d1, t1)][key := (d2, t2)] == entries[key := (d2, t2)]
  {
  }

  /** After a delete the key reads as missing; other keys are unaffected. */
  lemma DelThenGet<T>(entries: map<string, (T, int)>, key: string, other: string, at: int)
    ensures Lookup(entries - {key}, key, at).None?
    ensures other != key ==> Lookup(entries - {key}, other, at) == Lookup(entries, other, at)
  {
  }
}

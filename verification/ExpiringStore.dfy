/** Redis as a map from key to counter and optional expiry. `grace` is 0 or 1:
    whether a key is still there at its exact expiry instant is left open. */
module ExpiringStore {
  import opened Wrappers

  datatype Entry = Entry(count: int, expireAt: Option<int>)

  datatype Db = Db(entries: map<string, Entry>, grace: nat)

  predicate Live(db: Db, key: string, now: int) {
    key in db.entries && (db.entries[key].expireAt.Some? ==> now < db.entries[key].expireAt.value + db.grace)
  }

  /** INCR key 1: an expired or absent key restarts from zero without expiry. */
  function AfterIncr(db: Db, key: string, now: int): Db {
    var entry := if Live(db, key, now) then db.entries[key] else Entry(0, None);
    db.(entries := db.entries[key := entry.(count := entry.count + 1)])
  }

  /** PEXPIRE: a non-positive delay deletes the key. */
  function AfterPExpire(db: Db, key: string, ms: int, now: int): Db {
    if !Live(db, key, now) then db
    else if ms <= 0 then db.(entries := db.entries - {key})
    else db.(entries := db.entries[key := db.entries[key].(expireAt := Some(now + ms))])
  }

  /** PTTL: -2 for no key, -1 for no expiry. */
  function TtlOf(db: Db, key: string, now: int): int {
    if !Live(db, key, now) then -2
    else if db.entries[key].expireAt.None? then -1
    else db.entries[key].expireAt.value - now
  }

  class Redis {
    var entries: map<string, Entry>
    const grace: nat

    ghost function Contents(): Db
      reads this
    {
      Db(entries, grace)
    }

    constructor (grace: nat)
      ensures Contents() == Db(map[], grace)
    {
      this.grace := grace;
      entries := map[];
    }

    method Incr(key: string, now: int) returns (count: int)
      modifies this
      ensures Contents() == AfterIncr(old(Contents()), key, now)
      ensures key in entries && count == entries[key].count
    {
      var entry := Entry(0, None);
      if key in entries && (entries[key].expireAt.None? || now < entries[key].expireAt.value + grace) {
        entry := entries[key];
      }
      count := entry.count + 1;
      entries := entries[key := entry.(count := count)];
    }

    method PExpire(key: string, ms: int, now: int)
      modifies this
      ensures Contents() == AfterPExpire(old(Contents()), key, ms, now)
    {
      if key in entries && (entries[key].expireAt.None? || now < entries[key].expireAt.value + grace) {
        if ms <= 0 {
          entries := entries - {key};
        } else {
          entries := entries[key := entries[key].(expireAt := Some(now + ms))];
        }
      }
    }

    method PTtl(key: string, now: int) returns (ttl: int)
      ensures ttl == TtlOf(Contents(), key, now)
    {
      if !(key in entries && (entries[key].expireAt.None? || now < entries[key].expireAt.value + grace)) {
        return -2;
      }
      if entries[key].expireAt.None? {
        return -1;
      }
      return entries[key].expireAt.value - now;
    }
  }

  /** What an expiry does: the key is there until then and not after, and a delay that is
      not positive removes it at once. */
  lemma ExpiryEnds(db: Db, key: string, ms: int, now: int, later: int)
    requires Live(db, key, now) && now <= later
    ensures Live(AfterPExpire(db, key, ms, now), key, later) <==> ms > 0 && later < now + ms + db.grace
  {
  }
}

/**
 One linearizable Redis: a clock and a map from keys to items with an optional expiry.
 Each command is one atomic function of the database. An item whose expiry has been reached
 is absent for every command, whether or not it is still stored.

 The value type is a parameter: the lock stores tokens, the idempotency store stores "1",
 the cache stores strings, counters, hashes and sets.
 */
module Redis {
  import opened Wrappers

  datatype Item<V> = Item(value: V, expiry: Option<int>)

  datatype Db<V> = Db(now: int, items: map<string, Item<V>>)

  /** How one command travels: never applied, applied with its reply lost, or applied and answered. */
  datatype Net = Unsent | Lost | Answered

  datatype DeleteReply = Deleted | Absent | Foreign

  predicate Fresh<V>(item: Item<V>, now: int) {
    item.expiry.None? || now < item.expiry.value
  }

  /** What a read of the key sees. */
  function Look<V>(db: Db<V>, key: string): Option<Item<V>> {
    if key in db.items && Fresh(db.items[key], db.now) then Some(db.items[key]) else None
  }

  predicate Live<V>(db: Db<V>, key: string) {
    Look(db, key).Some?
  }

  /** The key is there and nothing will ever remove it by itself. */
  predicate Persistent<V>(db: Db<V>, key: string) {
    Look(db, key).Some? && Look(db, key).value.expiry.None?
  }

  function Tick<V>(db: Db<V>, elapsed: nat): Db<V> {
    db.(now := db.now + elapsed)
  }

  function Put<V>(db: Db<V>, key: string, item: Item<V>): Db<V> {
    db.(items := db.items[key := item])
  }

  function Remove<V>(db: Db<V>, keys: set<string>): Db<V> {
    db.(items := db.items - keys)
  }

  /** SET key value NX PX ttl, for ttl > 0. */
  function SetNX<V>(db: Db<V>, key: string, value: V, ttl: int): (Db<V>, bool) {
    if Live(db, key) then (db, false) else (Put(db, key, Item(value, Some(db.now + ttl))), true)
  }

  /** The release script: delete the key only if it still holds this value. */
  function CompareDelete<V(==)>(db: Db<V>, key: string, value: V): (Db<V>, DeleteReply) {
    match Look(db, key)
    case None => (db, Absent)
    case Some(item) => if item.value == value then (Remove(db, {key}), Deleted) else (db, Foreign)
  }

  /** SET key value with an expiration; the client sends none for 0, which stores the key for ever. */
  function Set<V>(db: Db<V>, key: string, value: V, ttl: int): Db<V> {
    Put(db, key, Item(value, if ttl > 0 then Some(db.now + ttl) else None))
  }

  /** EXPIRE key ttl; a ttl of 0 or less deletes the key. */
  function Expire<V>(db: Db<V>, key: string, ttl: int): Db<V> {
    match Look(db, key)
    case None => db
    case Some(item) =>
      if ttl > 0 then Put(db, key, item.(expiry := Some(db.now + ttl))) else Remove(db, {key})
  }

  /** EXPIRE key ttl NX: only a key without an expiry is touched. */
  function ExpireNX<V>(db: Db<V>, key: string, ttl: int): Db<V> {
    if Persistent(db, key) then Expire(db, key, ttl) else db
  }

  /** Replace the value of a key and keep its expiry; create it without one if it is absent. */
  function Update<V>(db: Db<V>, key: string, value: V): Db<V> {
    match Look(db, key)
    case None => Put(db, key, Item(value, None))
    case Some(item) => Put(db, key, item.(value := value))
  }
}

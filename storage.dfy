/**
 * The key-value persistence helper: each key holds one list of records, saved
 * and loaded whole. Serialisation to JSON text is not modelled; a key that is
 * absent, or whose text does not parse, reads as "not present".
 */
module Storage {
  import opened Wrappers

  /** The storage medium: one list of records per key. */
  type Db<E> = map<string, seq<E>>

  /** `storage.load(key)`: the stored list, or `None` (the source's `null`) when the key holds nothing. */
  function Load<E>(db: Db<E>, key: string): (r: Option<seq<E>>)
    ensures r.Some? <==> key in db
    ensures r.Some? ==> r.value == db[key]
  {
    if key in db then Some(db[key]) else None
  }

  /** `storage.load(key) || []`: what every handler starts from. */
  function LoadOrEmpty<E>(db: Db<E>, key: string): (r: seq<E>)
    ensures key !in db ==> r == []
    ensures key in db ==> r == db[key]
  {
    Load(db, key).GetOr([])
  }

  /**
   * The medium after `storage.save(key, value)`; `accepted` says whether the
   * medium took the write (it refuses, for one, when its quota is exhausted).
   * A refused write leaves the medium as it was.
   */
  function Saved<E>(db: Db<E>, key: string, value: seq<E>, accepted: bool): (r: Db<E>)
    ensures Load(r, key) == if accepted then Some(value) else Load(db, key)
    ensures forall k :: k != key ==> Load(r, k) == Load(db, k)
    ensures !accepted ==> r == db
  {
    if accepted then db[key := value] else db
  }

  /** The browser's storage, shared by the handlers of one kind of record. */
  class Store<E> {
    var db: Db<E>

    constructor (initial: Db<E>)
      ensures db == initial
    {
      db := initial;
    }

    /** `storage.load(key) || []` against the current contents. */
    function List(key: string): seq<E>
      reads this
    {
      LoadOrEmpty(db, key)
    }

    /** `storage.save(key, value)`: reports whether the write was taken; a refused write changes nothing. */
    method Save(key: string, value: seq<E>, accepted: bool) returns (ok: bool)
      modifies this
      ensures ok == accepted
      ensures db == Saved(old(db), key, value, accepted)
      ensures ok ==> List(key) == value
    {
      ok := accepted;
      if ok {
        db := db[key := value];
      }
    }
  }
}

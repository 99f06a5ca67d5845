/**
 * The in-memory backend: a string dictionary with the localStorage API, where
 * `getItem` reads an absent key, and also a stored empty string, as `null`.
 */
module MemoryStorages {
  import opened Values

  class MemoryStorage {
    /** The dictionary of stored strings. */
    var storage: map<string, string>

    constructor ()
      ensures storage == map[]
    {
      storage := map[];
    }

    /** `getItem`: `this.storage[key] || null`, with `None` for `null`. */
    function GetItem(key: string): (r: Option<string>)
      reads this
      ensures r.Some? <==> key in storage && storage[key] != ""
      ensures r.Some? ==> r.value == storage[key]
    {
      if key in storage && storage[key] != "" then Some(storage[key]) else None
    }

    /** `setItem`: store the string under `key`; a non-empty string reads back, every other key is kept. */
    method SetItem(key: string, value: string)
      modifies this
      ensures storage == old(storage)[key := value]
      ensures GetItem(key) == if value == "" then None else Some(value)
      ensures forall other :: other != key ==> GetItem(other) == old(GetItem(other))
    {
      storage := storage[key := value];
    }

    /** `removeItem`: delete `key` only; it then reads as `null`. */
    method RemoveItem(key: string)
      modifies this
      ensures storage == old(storage) - {key}
      ensures GetItem(key) == None
      ensures forall other :: other != key ==> GetItem(other) == old(GetItem(other))
    {
      storage := storage - {key};
    }

    /** `clear`: replace the dictionary by an empty one; every key reads as `null`. */
    method Clear()
      modifies this
      ensures storage == map[]
      ensures forall key :: GetItem(key) == None
    {
      storage := map[];
    }
  }
}

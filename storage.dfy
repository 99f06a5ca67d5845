/**
 * The storage layer as an object: `Storage` owns the contents of the backends
 * and updates them in place; each method is specified by the value-level
 * operation of the same name in `Buckets`.
 */
module Storages {
  import opened Values
  import opened Registry
  import opened Buckets

  class Storage {
    /** What localStorage, sessionStorage and memoryStorage hold. */
    var backends: Backends

    constructor (initial: Backends)
      ensures backends == initial
    {
      backends := initial;
    }

    /**
     * `getItem`: the item of the parsed bucket. Ids outside the read list and
     * the URL pseudo-backend fail; an absent bucket reads every item as `undefined`.
     */
    function GetItem(id: string, storeKey: string, itemKey: string): (r: Result<Value>)
      reads this
      ensures id !in ReadList ==> r == Err(InvalidBackend(id, ForRead))
      ensures id == UrlSearch ==> r == Err(TypeError)
      ensures id in WriteList && storeKey !in AreaOf(backends, id).value ==> r == Ok(Undefined)
    {
      Read(backends, id, storeKey, itemKey)
    }

    /**
     * `setStoreByStoreKey`: the id is checked for writing before any backend is
     * touched; a refused write is reported through the callback, never thrown.
     */
    method SetStore(id: string, storeKey: string, raw: Raw, writeFails: bool, hasCallback: bool)
      returns (status: Result<bool>)
      modifies this
      ensures Effect(status, backends) == Persist(old(backends), id, storeKey, raw, writeFails, hasCallback)
    {
      if CheckStorageType(id, ForWrite).Fail? {
        return Err(InvalidBackend(id, ForWrite));
      }
      if writeFails {
        return Ok(hasCallback);
      }
      var area := AreaOf(backends, id).value;
      backends := WithArea(backends, id, area[storeKey := raw]);
      status := Ok(false);
    }

    /** `setItem`: load the bucket, set the item in it, write it back. */
    method SetItem(id: string, storeKey: string, itemKey: string, v: Value, writeFails: bool, hasCallback: bool)
      returns (status: Result<bool>)
      modifies this
      ensures Effect(status, backends) == SetItemEffect(old(backends), id, storeKey, itemKey, v, writeFails, hasCallback)
      ensures status.Ok? && !writeFails ==> GetItem(id, storeKey, itemKey) == Ok(v)
      ensures status.Ok? && !writeFails ==> OthersUnchanged(old(backends), backends, id, storeKey)
    {
      var store := Load(backends, id, storeKey);
      if store.Err? {
        return Err(store.error);
      }
      var updated := Assign(store.value, itemKey, v);
      if updated.Err? {
        return Err(updated.error);
      }
      status := SetStore(id, storeKey, Encode(updated.value), writeFails, hasCallback);
      if status.Ok? && !writeFails {
        ReadAfterSet(old(backends), id, storeKey, itemKey, v, hasCallback);
      }
    }

    /** `removeItem` as evidently intended: delete the item and write the pruned bucket back. */
    method RemoveItem(id: string, storeKey: string, itemKey: string, writeFails: bool)
      returns (status: Result<bool>)
      modifies this
      ensures Effect(status, backends) == RemoveItemEffect(old(backends), id, storeKey, itemKey, writeFails)
      ensures status.Ok? && !writeFails ==> GetItem(id, storeKey, itemKey) == Ok(Undefined)
    {
      var store := Load(backends, id, storeKey);
      if store.Err? {
        return Err(store.error);
      }
      var pruned := Delete(store.value, itemKey);
      if pruned.Err? {
        return Err(pruned.error);
      }
      status := SetStore(id, storeKey, Encode(pruned.value), writeFails, false);
      if status.Ok? && !writeFails {
        ReadAfterRemove(old(backends), id, storeKey, itemKey);
      }
    }

    /** `clear`: replace the bucket by `{}`. */
    method Clear(id: string, storeKey: string, writeFails: bool) returns (status: Result<bool>)
      modifies this
      ensures Effect(status, backends) == ClearEffect(old(backends), id, storeKey, writeFails)
      ensures status.Ok? && !writeFails ==> forall itemKey :: GetItem(id, storeKey, itemKey) == Ok(Undefined)
    {
      status := SetStore(id, storeKey, JsonObject(map[]), writeFails, false);
      if status.Ok? && !writeFails {
        ReadAfterClear(old(backends), id, storeKey);
      }
    }
  }
}

/**
 * The backend registry: which backend identifiers a write may name and which
 * a read may name, as the id-to-id maps the storage layer builds from its
 * backend table.
 */
module Registry {
  import opened Values

  const LocalStorage: string := "localStorage"
  const SessionStorage: string := "sessionStorage"
  const MemoryStorage: string := "memoryStorage"
  /** The read-only pseudo-backend that reads the page URL's query string. */
  const UrlSearch: string := "urlSearch"

  /** The keys of the backend table, in declaration order. */
  const WriteList: seq<string> := [LocalStorage, SessionStorage, MemoryStorage]
  /** The write list with the URL pseudo-backend appended. */
  const ReadList: seq<string> := WriteList + [UrlSearch]

  /**
   * The map `list.reduce((map, item) => { map[item] = item; return map }, {})`:
   * a left fold that maps every listed id to itself.
   */
  function IdMap(list: seq<string>): (m: map<string, string>)
    ensures forall id :: id in m <==> id in list
    ensures forall id :: id in m ==> m[id] == id
  {
    if list == [] then map[]
    else
      var last := list[|list| - 1];
      IdMap(list[..|list| - 1])[last := last]
  }

  function MapFor(access: Access): (m: map<string, string>)
    ensures forall id :: id in m <==> id in (if access == ForWrite then WriteList else ReadList)
    ensures forall id :: id in m ==> m[id] == id
  {
    if access == ForWrite then IdMap(WriteList) else IdMap(ReadList)
  }

  /**
   * `setItemStoragesMap[id]` (for a write) or `getItemStoragesMap[id]` (for a
   * read) is truthy, reading the map as holding only its own entries.
   */
  predicate Listed(id: string, access: Access)
    ensures Listed(id, access) <==> id in (if access == ForWrite then WriteList else ReadList)
  {
    var m := MapFor(access);
    id in m && m[id] != ""
  }

  /**
   * `checkStorageType` (and its copy `checkParams` in the facade): throws for an
   * id that is not registered for the given kind of access.
   */
  function CheckStorageType(id: string, access: Access): (c: Check)
    ensures c == Pass <==> id in (if access == ForWrite then WriteList else ReadList)
    ensures c.Fail? ==> c.error == InvalidBackend(id, access)
  {
    if Listed(id, access) then Pass else Fail(InvalidBackend(id, access))
  }

  /** The read list is the write list plus the URL pseudo-backend, and strictly larger. */
  lemma ReadListExtendsWriteList()
    ensures ReadList == WriteList + [UrlSearch]
    ensures (set id | id in WriteList) < (set id | id in ReadList)
    ensures forall id :: Listed(id, ForWrite) ==> Listed(id, ForRead)
    ensures forall id :: Listed(id, ForRead) && !Listed(id, ForWrite) <==> id == UrlSearch
  {
    var w := set id | id in WriteList;
    var r := set id | id in ReadList;
    assert UrlSearch in r && UrlSearch !in w;
    assert w <= r;
    assert w != r;
  }

  // ---- The lookup as the source writes it ----------------------------------

  /**
   * The names a plain object literal inherits from `Object.prototype`. Reading
   * any of them from an id map yields a function (or the prototype itself), which
   * is truthy.
   */
  const ObjectPrototypeMembers: set<string> := {
    "constructor", "__defineGetter__", "__defineSetter__", "hasOwnProperty",
    "__lookupGetter__", "__lookupSetter__", "isPrototypeOf", "propertyIsEnumerable",
    "toString", "valueOf", "__proto__", "toLocaleString"
  }

  /** `map[id]` as JavaScript evaluates it on an object literal: own entries and inherited members. */
  predicate ListedAsWritten(id: string, access: Access)
    ensures ListedAsWritten(id, access) <==>
      id in (if access == ForWrite then WriteList else ReadList) || id in ObjectPrototypeMembers
  {
    Listed(id, access) || id in ObjectPrototypeMembers
  }

  /**
   * The whitelist as written lets inherited names through: "toString" passes the
   * write check although no backend is called that.
   */
  lemma PrototypeNamePassesAsWritten()
    ensures ListedAsWritten("toString", ForWrite) && ListedAsWritten("toString", ForRead)
    ensures !Listed("toString", ForWrite) && !Listed("toString", ForRead)
    ensures forall id :: Listed(id, ForRead) ==> id !in ObjectPrototypeMembers
  {
    assert "toString" !in ReadList;
    assert LocalStorage !in ObjectPrototypeMembers && SessionStorage !in ObjectPrototypeMembers;
    assert MemoryStorage !in ObjectPrototypeMembers && UrlSearch !in ObjectPrototypeMembers;
    forall id | Listed(id, ForRead)
      ensures id !in ObjectPrototypeMembers
    {
      assert id in ReadList;
    }
  }
}

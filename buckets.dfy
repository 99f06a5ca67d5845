/**
 * The storage layer on values: every backend maps a store key to the JSON text
 * of one bucket, an object holding the item keys of that store. Reading parses
 * the text; every update parses, changes the bucket and writes the text back.
 */
module Buckets {
  import opened Values
  import opened Registry

  /**
   * The text a backend holds under one key, as the value `JSON.parse` reads
   * from it: an object, a string, or text that is not JSON at all.
   */
  datatype Raw =
    | JsonObject(items: map<string, Value>)
    | JsonString(text: string)
    | NotJson

  type Area = map<string, Raw>

  /** The contents of the three real backends of the backend table. */
  datatype Backends = Backends(local: Area, session: Area, memory: Area)

  /** `originStorageMap[id]`; the URL pseudo-backend has no entry. */
  function AreaOf(bs: Backends, id: string): (a: Option<Area>)
    ensures a.Some? <==> id in WriteList
  {
    if id == LocalStorage then Some(bs.local)
    else if id == SessionStorage then Some(bs.session)
    else if id == MemoryStorage then Some(bs.memory)
    else None
  }

  /** The backends with the area of `id` replaced. */
  function WithArea(bs: Backends, id: string, a: Area): (r: Backends)
    requires id in WriteList
    ensures AreaOf(r, id) == Some(a)
    ensures forall other :: other != id ==> AreaOf(r, other) == AreaOf(bs, other)
  {
    if id == LocalStorage then bs.(local := a)
    else if id == SessionStorage then bs.(session := a)
    else bs.(memory := a)
  }

  /**
   * A bucket after `JSON.parse(val) || {}`: an object, or the non-empty string
   * that a removal as written leaves behind.
   */
  datatype Bucket = Items(items: map<string, Value>) | Chars(text: string)

  /** `JSON.parse(val) || {}`, where `val` is `null` when the key is absent. */
  function Decode(raw: Option<Raw>): (r: Result<Bucket>)
    ensures r.Err? <==> raw == Some(NotJson)
    ensures r.Err? ==> r.error == ParseError
    ensures raw.None? ==> r == Ok(Items(map[]))
    ensures r.Ok? && r.value.Chars? ==> r.value.text != ""
  {
    match raw
    case None => Ok(Items(map[]))
    case Some(JsonObject(m)) => Ok(Items(m))
    case Some(JsonString(t)) => if t == "" then Ok(Items(map[])) else Ok(Chars(t))
    case Some(NotJson) => Err(ParseError)
  }

  /** `JSON.stringify(store)`: decoding the text gives the bucket back. */
  function Encode(b: Bucket): (raw: Raw)
    ensures b != Chars("") ==> Decode(Some(raw)) == Ok(b)
    ensures raw != NotJson
  {
    match b
    case Items(m) => JsonObject(m)
    case Chars(t) => JsonString(t)
  }

  /**
   * `getStoreByStoreKey`: checks the id against the read list, then parses the
   * bucket; a missing or empty bucket reads as `{}`, corrupt text throws.
   */
  function Load(bs: Backends, id: string, storeKey: string): (r: Result<Bucket>)
    ensures id !in ReadList ==> r == Err(InvalidBackend(id, ForRead))
    ensures id == UrlSearch ==> r == Err(TypeError)
    ensures id in WriteList && storeKey !in AreaOf(bs, id).value ==> r == Ok(Items(map[]))
    ensures id in WriteList && storeKey in AreaOf(bs, id).value ==>
      (r == Err(ParseError) <==> AreaOf(bs, id).value[storeKey] == NotJson)
    ensures r.Ok? ==> id in WriteList
  {
    match CheckStorageType(id, ForRead)
    case Fail(e) => Err(e)
    case Pass =>
      match AreaOf(bs, id)
      case None => Err(TypeError)
      case Some(area) => Decode(if storeKey in area then Some(area[storeKey]) else None)
  }

  // ---- Property access on a parsed bucket ------------------------------------

  predicate IsDigit(c: char)
  {
    '0' <= c <= '9'
  }

  function DigitsValue(s: string): nat
    requires forall i | 0 <= i < |s| :: IsDigit(s[i])
  {
    if s == [] then 0
    else
      assert IsDigit(s[|s| - 1]);
      DigitsValue(s[..|s| - 1]) * 10 + (s[|s| - 1] as int - '0' as int)
  }

  /** The index a property name denotes on a string: canonical decimal digits only. */
  function CanonicalIndex(name: string): Option<nat>
  {
    if name != [] && (forall i | 0 <= i < |name| :: IsDigit(name[i])) && (name[0] != '0' || |name| == 1)
    then Some(DigitsValue(name))
    else None
  }

  /** A name that is an own property of a string of length `n`. */
  predicate IsStringProperty(name: string, n: nat)
  {
    name == "length" || (CanonicalIndex(name).Some? && CanonicalIndex(name).value < n)
  }

  /** `store[itemKey]`, reading own properties only. */
  function Property(b: Bucket, name: string): (v: Value)
    ensures b.Items? ==> (v == if name in b.items then b.items[name] else Undefined)
    ensures b.Chars? && !IsStringProperty(name, |b.text|) ==> v == Undefined
  {
    match b
    case Items(m) => if name in m then m[name] else Undefined
    case Chars(t) =>
      if name == "length" then Num(|t|)
      else match CanonicalIndex(name)
        case Some(i) => if i < |t| then Str([t[i]]) else Undefined
        case None => Undefined
  }

  /** `store[itemKey] = val`; module code is strict, so a string refuses the new property. */
  function Assign(b: Bucket, name: string, v: Value): (r: Result<Bucket>)
    ensures r.Ok? <==> b.Items?
    ensures r.Ok? ==> Property(r.value, name) == v
    ensures r.Ok? ==> forall other :: other != name ==> Property(r.value, other) == Property(b, other)
  {
    match b
    case Items(m) => Ok(Items(m[name := v]))
    case Chars(_) => Err(TypeError)
  }

  /** `delete store[itemKey]`; strict code throws deleting a string's own property. */
  function Delete(b: Bucket, name: string): (r: Result<Bucket>)
    ensures r.Err? <==> b.Chars? && IsStringProperty(name, |b.text|)
    ensures r.Ok? ==> Property(r.value, name) == Undefined
    ensures r.Ok? ==> forall other :: other != name ==> Property(r.value, other) == Property(b, other)
  {
    match b
    case Items(m) => Ok(Items(m - {name}))
    case Chars(t) => if IsStringProperty(name, |t|) then Err(TypeError) else Ok(b)
  }

  // ---- Writing ----------------------------------------------------------------

  /**
   * The outcome of a write through the storage layer: the error it throws, or
   * whether it called the error callback; and the backends afterwards.
   */
  datatype Effect = Effect(status: Result<bool>, after: Backends)

  /**
   * `setStoreByStoreKey`: checks the id against the write list, then stores the
   * text. A backend that refuses the write (`writeFails`) leaves the backends as
   * they were and calls the callback when there is one.
   */
  function Persist(bs: Backends, id: string, storeKey: string, raw: Raw, writeFails: bool, hasCallback: bool): (e: Effect)
    ensures e.status.Err? <==> id !in WriteList
    ensures e.status.Err? ==> e.status.error == InvalidBackend(id, ForWrite)
    ensures e.status.Ok? ==> e.status.value == (writeFails && hasCallback)
    ensures e.status.Err? || writeFails ==> e.after == bs
    ensures e.status.Ok? && !writeFails ==> AreaOf(e.after, id) == Some(AreaOf(bs, id).value[storeKey := raw])
    ensures forall other :: other != id ==> AreaOf(e.after, other) == AreaOf(bs, other)
  {
    match CheckStorageType(id, ForWrite)
    case Fail(err) => Effect(Err(err), bs)
    case Pass =>
      if writeFails then Effect(Ok(hasCallback), bs)
      else Effect(Ok(false), WithArea(bs, id, AreaOf(bs, id).value[storeKey := raw]))
  }

  /** Every bucket other than `storeKey` of `id` loads as before. */
  ghost predicate OthersUnchanged(before: Backends, after: Backends, id: string, storeKey: string)
  {
    forall other, key :: (other != id || key != storeKey) ==> Load(after, other, key) == Load(before, other, key)
  }

  /** A write through `Persist` touches one bucket and no other. */
  lemma PersistFrame(bs: Backends, id: string, storeKey: string, raw: Raw, writeFails: bool, hasCallback: bool)
    ensures OthersUnchanged(bs, Persist(bs, id, storeKey, raw, writeFails, hasCallback).after, id, storeKey)
  {
    var after := Persist(bs, id, storeKey, raw, writeFails, hasCallback).after;
    forall other, key | other != id || key != storeKey
      ensures Load(after, other, key) == Load(bs, other, key)
    {
      if other == id && AreaOf(bs, id).Some? {
        var a := AreaOf(bs, id).value;
        var b := AreaOf(after, id).value;
        assert b == a || b == a[storeKey := raw];
        assert (key in a <==> key in b) && (key in a ==> a[key] == b[key]);
      }
    }
  }

  /** `Storage.setItem`: load the bucket, set the item, write the bucket back. */
  function SetItemEffect(bs: Backends, id: string, storeKey: string, itemKey: string, v: Value,
                         writeFails: bool, hasCallback: bool): (e: Effect)
    ensures Load(bs, id, storeKey).Err? ==> e == Effect(Err(Load(bs, id, storeKey).error), bs)
    ensures e.status.Ok? <==> Load(bs, id, storeKey).Ok? && Load(bs, id, storeKey).value.Items?
    ensures e.status.Err? ==> e.after == bs
    ensures e.status.Ok? ==> e.status.value == (writeFails && hasCallback)
    ensures writeFails ==> e.after == bs
  {
    match Load(bs, id, storeKey)
    case Err(err) => Effect(Err(err), bs)
    case Ok(b) =>
      match Assign(b, itemKey, v)
      case Err(err) => Effect(Err(err), bs)
      case Ok(updated) => Persist(bs, id, storeKey, Encode(updated), writeFails, hasCallback)
  }

  /** `Storage.getItem`: the item of the parsed bucket. */
  function Read(bs: Backends, id: string, storeKey: string, itemKey: string): (r: Result<Value>)
    ensures id !in ReadList ==> r == Err(InvalidBackend(id, ForRead))
    ensures id == UrlSearch ==> r == Err(TypeError)
    ensures id in WriteList && storeKey !in AreaOf(bs, id).value ==> r == Ok(Undefined)
  {
    match Load(bs, id, storeKey)
    case Err(e) => Err(e)
    case Ok(b) => Ok(Property(b, itemKey))
  }

  /** A read sees nothing but its own bucket. */
  lemma ReadFrame(a: Backends, b: Backends, id: string, storeKey: string, itemKey: string)
    requires Load(a, id, storeKey) == Load(b, id, storeKey)
    ensures Read(a, id, storeKey, itemKey) == Read(b, id, storeKey, itemKey)
  {
  }

  /**
   * `Storage.removeItem` as evidently intended: load the bucket, delete the
   * item, write the bucket back (no error callback).
   */
  function RemoveItemEffect(bs: Backends, id: string, storeKey: string, itemKey: string, writeFails: bool): (e: Effect)
    ensures Load(bs, id, storeKey).Err? ==> e == Effect(Err(Load(bs, id, storeKey).error), bs)
    ensures e.status.Err? || writeFails ==> e.after == bs
    ensures e.status.Ok? ==> e.status.value == false
  {
    match Load(bs, id, storeKey)
    case Err(err) => Effect(Err(err), bs)
    case Ok(b) =>
      match Delete(b, itemKey)
      case Err(err) => Effect(Err(err), bs)
      case Ok(pruned) => Persist(bs, id, storeKey, Encode(pruned), writeFails, false)
  }

  /**
   * `Storage.removeItem` as written: it deletes the item from the parsed bucket
   * and then writes the item key itself, `JSON.stringify(itemKey)`, as the bucket.
   */
  function RemoveItemAsWrittenEffect(bs: Backends, id: string, storeKey: string, itemKey: string, writeFails: bool): (e: Effect)
    ensures Load(bs, id, storeKey).Err? ==> e == Effect(Err(Load(bs, id, storeKey).error), bs)
    ensures e.status.Err? || writeFails ==> e.after == bs
  {
    match Load(bs, id, storeKey)
    case Err(err) => Effect(Err(err), bs)
    case Ok(b) =>
      match Delete(b, itemKey)
      case Err(err) => Effect(Err(err), bs)
      case Ok(_) => Persist(bs, id, storeKey, JsonString(itemKey), writeFails, false)
  }

  /** `Storage.clear`: write an empty bucket, without loading the old one. */
  function ClearEffect(bs: Backends, id: string, storeKey: string, writeFails: bool): (e: Effect)
    ensures e.status.Err? <==> id !in WriteList
    ensures e.status.Err? ==> e.status.error == InvalidBackend(id, ForWrite)
  {
    Persist(bs, id, storeKey, JsonObject(map[]), writeFails, false)
  }

  // ---- Properties --------------------------------------------------------------

  /** After a successful write the item reads back; every other item and bucket is as before. */
  lemma ReadAfterSet(bs: Backends, id: string, storeKey: string, itemKey: string, v: Value, hasCallback: bool)
    requires SetItemEffect(bs, id, storeKey, itemKey, v, false, hasCallback).status.Ok?
    ensures var after := SetItemEffect(bs, id, storeKey, itemKey, v, false, hasCallback).after;
      && Read(after, id, storeKey, itemKey) == Ok(v)
      && (forall other :: other != itemKey ==> Read(after, id, storeKey, other) == Read(bs, id, storeKey, other))
      && OthersUnchanged(bs, after, id, storeKey)
  {
    var b := Load(bs, id, storeKey).value;
    var updated := Assign(b, itemKey, v).value;
    var after := SetItemEffect(bs, id, storeKey, itemKey, v, false, hasCallback).after;
    assert after == Persist(bs, id, storeKey, Encode(updated), false, hasCallback).after;
    assert Load(after, id, storeKey) == Ok(updated);
    PersistFrame(bs, id, storeKey, Encode(updated), false, hasCallback);
  }

  /** After a successful removal the item reads as `undefined`; every other item and bucket is as before. */
  lemma ReadAfterRemove(bs: Backends, id: string, storeKey: string, itemKey: string)
    requires RemoveItemEffect(bs, id, storeKey, itemKey, false).status.Ok?
    ensures var after := RemoveItemEffect(bs, id, storeKey, itemKey, false).after;
      && Read(after, id, storeKey, itemKey) == Ok(Undefined)
      && (forall other :: other != itemKey ==> Read(after, id, storeKey, other) == Read(bs, id, storeKey, other))
      && OthersUnchanged(bs, after, id, storeKey)
  {
    var b := Load(bs, id, storeKey).value;
    var pruned := Delete(b, itemKey).value;
    var after := RemoveItemEffect(bs, id, storeKey, itemKey, false).after;
    assert after == Persist(bs, id, storeKey, Encode(pruned), false, false).after;
    assert Load(after, id, storeKey) == Ok(pruned);
    PersistFrame(bs, id, storeKey, Encode(pruned), false, false);
  }

  /** After a successful clear every item of the bucket reads as `undefined`; other buckets are as before. */
  lemma ReadAfterClear(bs: Backends, id: string, storeKey: string)
    requires id in WriteList
    ensures var after := ClearEffect(bs, id, storeKey, false).after;
      && (forall itemKey :: Read(after, id, storeKey, itemKey) == Ok(Undefined))
      && OthersUnchanged(bs, after, id, storeKey)
  {
    var after := ClearEffect(bs, id, storeKey, false).after;
    assert Load(after, id, storeKey) == Ok(Items(map[]));
    PersistFrame(bs, id, storeKey, JsonObject(map[]), false, false);
  }

  /**
   * A removal as written replaces the whole bucket by the removed key's text:
   * afterwards no other item survives and the bucket refuses every later write.
   */
  lemma RemoveAsWrittenWipesBucket(bs: Backends, id: string, storeKey: string, itemKey: string)
    requires RemoveItemAsWrittenEffect(bs, id, storeKey, itemKey, false).status.Ok?
    requires itemKey != ""
    ensures var after := RemoveItemAsWrittenEffect(bs, id, storeKey, itemKey, false).after;
      && Load(after, id, storeKey) == Ok(Chars(itemKey))
      && (forall other :: !IsStringProperty(other, |itemKey|) ==> Read(after, id, storeKey, other) == Ok(Undefined))
      && (forall key, v, fails, cb :: SetItemEffect(after, id, storeKey, key, v, fails, cb).status == Err(TypeError))
  {
    var after := RemoveItemAsWrittenEffect(bs, id, storeKey, itemKey, false).after;
    assert after == Persist(bs, id, storeKey, JsonString(itemKey), false, false).after;
    assert Load(after, id, storeKey) == Ok(Chars(itemKey));
  }

  /** The bucket `{"a":1,"b":2}` in local storage under "k". */
  function SiblingsExample(): Backends
  {
    Backends(map["k" := JsonObject(map["a" := Num(1), "b" := Num(2)])], map[], map[])
  }

  /** Removing "b" as written loses the sibling "a"; the corrected removal keeps it. */
  lemma RemoveAsWrittenLosesSiblings()
    ensures Read(RemoveItemAsWrittenEffect(SiblingsExample(), LocalStorage, "k", "b", false).after, LocalStorage, "k", "a") == Ok(Undefined)
    ensures Read(RemoveItemEffect(SiblingsExample(), LocalStorage, "k", "b", false).after, LocalStorage, "k", "a") == Ok(Num(1))
    ensures Read(SiblingsExample(), LocalStorage, "k", "a") == Ok(Num(1))
  {
    var bs := SiblingsExample();
    assert Load(bs, LocalStorage, "k") == Ok(Items(map["a" := Num(1), "b" := Num(2)]));
    var asWritten := RemoveItemAsWrittenEffect(bs, LocalStorage, "k", "b", false).after;
    assert Load(asWritten, LocalStorage, "k") == Ok(Chars("b"));
    assert CanonicalIndex("a") == None;
    var corrected := RemoveItemEffect(bs, LocalStorage, "k", "b", false).after;
    assert Load(corrected, LocalStorage, "k") == Ok(Items(map["a" := Num(1), "b" := Num(2)] - {"b"}));
  }
}

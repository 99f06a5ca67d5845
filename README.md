# z-multi-cache, modelled in Dafny

z-multi-cache is a small browser cache library. A facade built by `factory`
stores items in localStorage, sessionStorage or an in-memory store. Each item
belongs to a page (a "bucket") inside a namespace. The facade:

- resolves a `scope` string such as `"home/hotel"` into a page (`home`) and an
  item key (`hotel>city`);
- checks the backend id against a whitelist;
- in strict mode, checks the page or the key against a template;
- reads or writes the item inside the JSON bucket stored under
  `$zMultiCachePrefix$-<ns>-<page>`.

The model covers the facade (`src/store.js`), the bucket layer with its backend
registry (`src/storages/index.js`) and the in-memory backend
(`src/storages/memoryStorage.js`). One module per part:

- `Values`: JavaScript values (`undefined`, `null`, numbers as integers,
  strings, arrays, objects, functions), truthiness, `getType`, the errors the
  core throws, and `Result`/`Check`.
- `Registry`: the write list, the read list, the id maps built from them, and
  `checkStorageType` (its copy in the facade is `checkParams`).
- `Scope`: `getPageAndItemKey`, with `trim`, the trailing-strip regular
  expression and `indexOf` written out.
- `Strict`: `strictCheck`.
- `Buckets`: the storage layer on values. The backends are three maps from
  store key to bucket text. Every operation is a function from the old
  backends to an `Effect`: the thrown error or the callback flag, plus the new
  backends.
- `Storages`: the class `Storage`. It owns the backends and updates them in
  place. Each method is proved equal to its `Buckets` function.
- `MemoryStorages`: the class `MemoryStorage`, a string dictionary changed in
  place.
- `Store`: `factory` and the facade's `setItem`, `getItem`, `removeItem` and
  `clear`. The facade holds only its configuration, so it is a datatype. Its
  methods take the `Storage` object they act on. `getItem`'s fallback list is a
  loop with early return, proved against the recursive function `Lookup`.

Behaviour that is not state or values is passed in as parameters:

- `getUrlParam` is an abstract function `url: string -> Value`;
- a backend that refuses a write (a quota error) is the input `writeFails`;
- whether `errCallBack` is a function is the input `hasCallback`. The default
  `noop` counts as a function.

Where the library's prose description and its code differ, the model follows
the code:

- a bucket whose text is not JSON makes every read, `setItem` and
  `removeItem` throw (`Buckets.Load`); it is not treated as empty, and `clear`
  replaces it with `{}`;
- the scope `"global"` uses the page `"global"`; only an empty page part
  becomes `$page$`;
- a fallback list whose entries all miss returns `opts.default` as given; a
  function default is not called there (`Store.FallbackResult`);
- the trailing strip removes `/` only, whatever separator is configured
  (`Scope.StripTrailing`).

## Model

| member | source | states |
|---|---|---|
| Values.Truthy | src/store.js:224 | truthiness as `if (result)` and `val \|\| defaultValue` see it: a truthy value is neither `undefined` nor `null`, and every array, object and function is truthy |
| Values.TypeTag | src/store.js:19-24 | `getType` gives `"object"` exactly for plain objects and `"array"` exactly for arrays |
| Values.IsSimpleObject | src/store.js:32-34 | `isSimpleObject` holds exactly for plain objects: arrays, `null` and functions are not simple objects |
| Registry.IdMap | src/storages/index.js:10-13 | the reduced map holds exactly the listed ids, each mapped to itself |
| Registry.MapFor | src/storages/index.js:10-20 | the map for a write holds exactly the write list and the map for a read exactly the read list, each id mapped to itself |
| Registry.Listed | src/storages/index.js:9-20 | an id is listed for writes iff it is in the write list, and for reads iff it is in the read list |
| Registry.CheckStorageType | src/storages/index.js:28-45 | an id passes iff it is in the write list (for writes) or the read list (for reads); otherwise it fails with the invalid-backend error for that id and access |
| Registry.ReadListExtendsWriteList | src/storages/index.js:9-21 | the read list is the write list plus `urlSearch`; the write ids form a strict subset of the read ids; an id readable but not writable is exactly `urlSearch` |
| Registry.ListedAsWritten | src/storages/index.js:33-39 | the object-literal lookup as written accepts exactly the listed ids and the names inherited from `Object.prototype` |
| Registry.PrototypeNamePassesAsWritten | src/storages/index.js:33-39 | the object-literal lookup as written accepts `toString` for writes and reads though no backend has that name; no genuinely listed read id is a prototype name |
| Scope.TrimEnd | src/store.js:117-120 | the result is a prefix of the input, the removed suffix is all whitespace, and the result does not end in whitespace |
| Scope.TrimStart | src/store.js:117-120 | the result is a suffix of the input, the removed prefix is all whitespace, and the result does not start with whitespace |
| Scope.Trim | src/store.js:117-120 | `trim()` gives a trimmed string no longer than the input, and leaves an already trimmed string as it is |
| Scope.TrimKeepsMiddle | src/store.js:117-120 | `trim()` keeps a contiguous middle of the input and drops only whitespace before and after it |
| Scope.StripTrailingIsLeftmostMatch | src/store.js:114 | the strip removes a suffix that matches `\s*\/?\s*` completely, and no longer suffix matches: the leftmost match of the anchored pattern |
| Scope.StripTrailing | src/store.js:114 | the strip keeps a prefix of the scope, which does not end in whitespace |
| Scope.StripTrailingBlanksAndSlash | src/store.js:114 | a scope with a clean end keeps it after the strip; trailing blanks, with at most one `/` among them, are removed entirely |
| Scope.IndexOf | src/store.js:115 | the index found is an occurrence of the separator and no earlier position is one; no index means no occurrence at all |
| Scope.IsGlobalStore | src/store.js:97-99 | `isGlobalStore` holds exactly for the page `"global"` |
| Scope.SplitScope | src/store.js:115-120 | both the page part and the subpath are trimmed, and without the separator the subpath is empty |
| Scope.IndexOfFirst | src/store.js:115 | for a separator of any length, `indexOf` finds it right after a prefix in which it does not occur |
| Scope.SplitAtFirst | src/store.js:115-120 | for a separator of any length, the page part is the trimmed text before its first occurrence and the subpath the trimmed text after it |
| Scope.PageOf | src/store.js:124 | `page \|\| void 0`: absent exactly for the empty page, and otherwise the page itself |
| Scope.ItemKey | src/store.js:121-122 | the item key ends with the key, and is exactly the key on the global page or without a subpath |
| Scope.Resolve | src/store.js:109-127 | a non-string scope throws the scope error and any string resolves; on the global page the item key is the bare key; the page is never the empty string (empty becomes absent) |
| Scope.ResolvePageAndSubpath | src/store.js:115-122 | `<page><c><subpath>` gives page `page` and item key `subpath>key`, or `key` when the subpath is empty or the page is `global` |
| Scope.ResolveWithSubpath | src/store.js:115-122 | a non-empty trimmed subpath after the first separator prefixes the key with `subpath>` except on the global page |
| Scope.ResolveWithTrailingSeparator | src/store.js:114-122 | a scope ending in the separator resolves to its page with the bare key |
| Scope.ResolveWithoutSeparator | src/store.js:115-122 | without the separator the page is the whole trimmed, stripped scope and the item key is the key |
| Scope.ResolveAtSeparator | src/store.js:114-122 | for any separator string (`scopeSeparator`, lines 136 and 151), `<page><sep><subpath>` gives page `page` and item key `subpath>key`, or `key` when the subpath is empty or the page is `global` |
| Scope.ResolveDoubleColon | src/store.js:115-122 | `"home::hotel"` with the separator `"::"` and key `"name"` gives page `home` and item key `hotel>name` |
| Scope.ResolveIgnoresTrailingSlash | src/store.js:114 | `"home/ "` and `"home  "` resolve exactly like `"home"`, for every separator and key |
| Scope.BlankScopeHasNoPage | src/store.js:114-124 | a scope made of blanks and at most one `/` has no page (the caller substitutes `$page$`) and keeps the key as it is |
| Scope.ResolveHomeHotel | test/store.js:11 | `"home/hotel"` with key `"name"` and separator `"/"` gives page `home` and item key `hotel>name` |
| Strict.SomeEquals | src/store.js:46-48 | `some(item => item === x)` holds iff the string `x` is an element of the list |
| Strict.TemplateField | src/store.js:41 | destructuring a field of the template throws a type error exactly for a `null` or `undefined` template; an object gives its own field and anything else `undefined` |
| Strict.StrictCheck | src/store.js:36-69 | off in non-strict mode; for an object template it passes iff the key (global page) or the page (other pages) is listed in an array field; it fails only with a schema error, or a type error for a `null`/`undefined` template |
| Strict.StrictIgnoresItemKeyOffGlobal | src/store.js:54-68 | off the global page the verdict depends on the page only, never on the item key |
| Strict.StrictFailureReasons | src/store.js:40-68 | for an object template: a non-array list field gives the "not an array" error, an unlisted key or page the "not declared" error, and otherwise the check passes |
| Buckets.AreaOf | src/storages/index.js:3-7 | a backend area exists exactly for the ids of the backend table |
| Buckets.WithArea | src/storages/index.js:72 | writing one backend's area replaces it and leaves the other two backends alone |
| Buckets.Decode | src/storages/index.js:57 | `JSON.parse(val) \|\| {}`: fails with a parse error exactly for non-JSON text, gives `{}` for an absent key, and never gives an empty string bucket |
| Buckets.Encode | src/storages/index.js:71 | decoding the encoded bucket gives the bucket back (the empty string excepted, which `\|\| {}` turns into `{}`); the text is always JSON |
| Buckets.Load | src/storages/index.js:54-58 | the read list is checked first; `urlSearch` has no backend and throws a type error; an absent key loads `{}`; the parse error arises exactly for non-JSON text |
| Buckets.Property | src/storages/index.js:116 | on an object bucket the item or `undefined`; on a string bucket only `length` and index names are defined |
| Buckets.Assign | src/storages/index.js:101 | the assignment succeeds iff the bucket is an object; then the item reads back as the value and every other item is unchanged |
| Buckets.Delete | src/storages/index.js:129 | the deletion throws iff the bucket is a string and the name is one of its own properties; after a deletion that succeeds the name reads as `undefined` and every other item is unchanged |
| Buckets.Persist | src/storages/index.js:68-76 | throws iff the id is not writable; a refused write changes nothing and reports whether a callback was called; a successful write stores the text under the key of that backend only |
| Buckets.PersistFrame | src/storages/index.js:68-76 | a write changes at most one bucket of one backend |
| Buckets.SetItemEffect | src/storages/index.js:99-103 | a load error is rethrown with no change; the write proceeds iff the bucket loads as an object; a refused write changes nothing |
| Buckets.Read | src/storages/index.js:114-117 | an unreadable id throws the invalid-backend error, `urlSearch` a type error, and an absent bucket reads every item as `undefined` |
| Buckets.ReadFrame | src/storages/index.js:114-117 | a read depends only on the bucket it loads |
| Buckets.RemoveItemEffect | src/storages/index.js:127-131 | the corrected removal: a load error is rethrown with no change, failures change nothing, and no callback is invoked |
| Buckets.RemoveItemAsWrittenEffect | src/storages/index.js:127-131 | the removal as written: a load error is rethrown with no change and failures change nothing |
| Buckets.ClearEffect | src/storages/index.js:140-142 | clearing throws iff the id is not writable, with the invalid-backend error |
| Buckets.ReadAfterSet | src/storages/index.js:99-117 | after a successful write the item reads back as the value; every other item of the bucket and every other bucket of every backend is unchanged |
| Buckets.ReadAfterRemove | src/storages/index.js:114-131 | after a successful corrected removal the item reads as `undefined`, from an object or a string bucket; every other item and bucket is unchanged |
| Buckets.ReadAfterClear | src/storages/index.js:114-142 | after a clear every item of the bucket reads as `undefined`; every other bucket is unchanged |
| Buckets.RemoveAsWrittenWipesBucket | src/storages/index.js:130 | after a removal as written the bucket is the item key's string; no non-index item survives and every later `setItem` on the bucket throws |
| Buckets.RemoveAsWrittenLosesSiblings | src/storages/index.js:128-130 | removing `b` from `{"a":1,"b":2}` as written loses `a`; the corrected removal keeps `a == 1` |
| Storages.Storage.constructor | src/storages/index.js:84 | a storage object starts with the given backends |
| Storages.Storage.GetItem | src/storages/index.js:114-117 | `getItem` on the object's backends: unreadable ids and `urlSearch` throw, an absent bucket gives `undefined` |
| Storages.Storage.SetStore | src/storages/index.js:68-76 | the in-place write has exactly the effect of `Buckets.Persist` on the old backends |
| Storages.Storage.SetItem | src/storages/index.js:99-103 | the in-place update has the effect of `Buckets.SetItemEffect`; after a successful write the item reads back and every other bucket is unchanged |
| Storages.Storage.RemoveItem | src/storages/index.js:127-131 | the corrected removal in place has the effect of `Buckets.RemoveItemEffect`; after a successful write the item reads as `undefined` |
| Storages.Storage.Clear | src/storages/index.js:140-142 | the in-place clear has the effect of `Buckets.ClearEffect`; afterwards every item of the bucket reads as `undefined` |
| MemoryStorages.MemoryStorage.constructor | src/storages/memoryStorage.js:8 | the dictionary starts empty |
| MemoryStorages.MemoryStorage.GetItem | src/storages/memoryStorage.js:14-16 | a string is returned iff the key is present with a non-empty value, and it is that value; otherwise `null` |
| MemoryStorages.MemoryStorage.SetItem | src/storages/memoryStorage.js:10-12 | the key maps to the value; it reads back unless it is empty (then `null`); every other key reads as before |
| MemoryStorages.MemoryStorage.RemoveItem | src/storages/memoryStorage.js:18-20 | only the key is deleted; it reads as `null`; every other key reads as before |
| MemoryStorages.MemoryStorage.Clear | src/storages/memoryStorage.js:22-24 | the dictionary is empty and every key reads as `null` |
| Store.Factory | src/store.js:146-158 | construction throws iff strict mode is on and the template is not a plain object; otherwise the facade keeps the configuration |
| Store.DefaultFactory | src/store.js:146-153 | `factory()` with no configuration succeeds; its defaults are non-strict, namespace `$ns$` and separator `/` (the default export, line 333) |
| Store.StoreKey | src/store.js:159 | the bucket key `${NAMESPACE_PREFIX}-${ns}-${page}` (built at lines 188, 253, 282 and 301) is two dashes longer than the prefix, the namespace and the page together, and ends with the page |
| Store.StoreKeyLayout | src/store.js:159-188 | the store key is the prefix, a dash, the namespace, a dash and the page, character by character |
| Store.StoreKeyInjective | src/store.js:159-188 | for namespaces without a dash, equal store keys mean equal namespaces and equal pages |
| Store.NamespaceCollision | src/store.js:159-188 | with a dash in the namespace, namespace `a` page `b-c` and namespace `a-b` page `c` share a bucket |
| Store.ScopeOrGlobal | src/store.js:176 | the destructuring default `scope = "global"` replaces only an absent scope and never yields `undefined` |
| Store.Locate | src/store.js:182-187 | the scope default is `"global"`; a non-string scope gives the scope error, and any other error is a schema or type error of the strict check; the page is never empty; on the global page the item key is the key |
| Store.LocateResolves | src/store.js:182-188 | the target is the resolved page, `$page$` when resolution finds none, with the resolved item key |
| Store.LocateWithoutCheck | src/store.js:250-252 | the strict check only accepts or rejects, so skipping it (`getterStrict` off) finds the same target |
| Store.PageIgnoresKey | src/store.js:109-124 | the page depends on the scope only, never on the key |
| Store.WriteTarget | src/store.js:181-187 | `checkParams` first: an id outside the write list gives its invalid-backend error, and a writable id gives the checked target |
| Store.SetEffect | src/store.js:173-189 | an id outside the write list (`urlSearch` and `ls` included) throws before resolution and changes nothing; a non-string scope throws the scope error; every error or refused write leaves the backends unchanged |
| Store.SetItem | src/store.js:173-189 | the method on a `Storage` object has exactly the effect of `SetEffect` |
| Store.DefaultValue | src/store.js:90-95 | `getDefaultValue` changes exactly a function default, which gives its result |
| Store.ReadOne | src/store.js:238-256 | an id outside the read list throws; `urlSearch` gives the URL parameter when truthy, else the default; a non-string scope throws the scope error; a `null` or `undefined` result is always the default |
| Store.Lookup | src/store.js:208-256 | a fallback list returns either a truthy value or the raw default |
| Store.Results | src/store.js:218-223 | one nested result per entry of a fallback list |
| Store.Entry | src/store.js:219-223 | the nested call for entry `i` uses that entry as its type, the same scope and no default |
| Store.FirstHit | src/store.js:224-230 | the loop returns a truthy value or the default, and any error it returns is one of the nested results |
| Store.GetItem | src/store.js:208-265 | the method, with its loop over a fallback list, returns exactly `Lookup` on the storage's backends |
| Store.FirstHitAt | src/store.js:218-230 | after a run of misses the loop returns the first result that throws or is truthy, and the default when every result misses |
| Store.FallbackResult | src/store.js:217-231 | a fallback list returns the first entry that throws or is truthy, and the raw `default` (not called) when every entry is falsy |
| Store.OverrideRedirects | src/store.js:233-236 | an object type redirects to `type.key \|\| key` and `type.type`; an absent `type.type` is rejected as `"undefined"` |
| Store.ReadChecksTypeFirst | src/store.js:238 | a read with an id outside the read list throws before the scope is looked at |
| Store.UrlSearchIgnoresScope | src/store.js:239-243 | `urlSearch` returns the URL parameter when truthy, else the default (a function default is called) |
| Store.LookupSingle | src/store.js:238-256 | `getItem` with a string type is one read of that backend |
| Store.SetThenGet | src/store.js:173-189 | after a successful `setItem`, `getItem` with the same type, scope and key returns the value, or the default when the value is `null`/`undefined` |
| Store.ReadOneFrame | src/store.js:245-256 | a single read depends only on the bucket that its scope reaches |
| Store.ReadOneSeesOwnNamespace | src/store.js:253-256 | a single read depends only on the buckets of the facade's own namespace |
| Store.LookupSeesOwnNamespace | src/store.js:208-256 | every `getItem`, fallback lists included, depends only on the buckets of the facade's own namespace |
| Store.ResultsSeeOwnNamespace | src/store.js:218-223 | the nested results of a fallback list depend only on the buckets of the facade's own namespace |
| Store.OtherNamespaceUntouched | src/store.js:159-188 | a write to one bucket of namespace `ns1` leaves every bucket of a different dash-free namespace alone |
| Store.NamespaceIsolation | src/store.js:159-189 | a `setItem` through one facade changes no `getItem` result of a facade with a different dash-free namespace |
| Store.RemoveEffect | src/store.js:273-283 | the corrected removal: an id outside the write list throws before resolution, a non-string scope throws the scope error, and errors or refused writes change nothing |
| Store.RemoveItem | src/store.js:273-283 | the method on a `Storage` object has exactly the effect of `RemoveEffect` |
| Store.RemoveThenGet | src/store.js:273-283 | after a successful corrected removal, `getItem` with the same type, scope and key returns the default |
| Store.ClearPageEffect | src/store.js:291-302 | the corrected clear: the write-list and scope errors come first, and errors or refused writes change nothing |
| Store.Clear | src/store.js:291-302 | the method on a `Storage` object has exactly the effect of `ClearPageEffect` |
| Store.StoreKeySamePage | src/store.js:188 | within one namespace, equal store keys mean equal pages |
| Store.ClearThenRead | src/store.js:291-302 | after a successful clear, a read of the cleared backend through any scope that reaches the cleared page gives the default |
| Store.ClearThenGet | src/store.js:291-302 | after a successful clear, every key read through any scope that reaches the cleared page (`"home/hotel"` after clearing `"home"`) returns the default |
| Store.ClearKeepsOtherReads | src/store.js:291-302 | a successful clear leaves every read of another backend or another page as it was |
| Store.ClearKeepsOtherPages | src/store.js:291-302 | a successful clear leaves every `getItem` of another backend or another page as it was |
| Store.Reentry | src/store.js:283 | a facade method that calls itself instead of the storage layer always throws: either one of its checks fails or the stack runs out |
| Store.ReentryOverflows | src/store.js:283-302 | when every call with a writable id and a string scope passes its checks, the self-call ends in a stack overflow |
| Store.Admit | src/store.js:274-281 | one call's checks pass exactly when the write target is found: the id is writable, the scope is a string and the strict check passes |
| Store.AdmitNonStrict | src/store.js:274-281 | without strict mode a removal's checks are the write list and the type of the scope |
| Store.RemoveAsWritten | src/store.js:273-283 | the facade's `removeItem` as written always throws, its own check's error when that check fails |
| Store.ClearAsWritten | src/store.js:291-302 | the facade's `clear` as written always throws, its own check's error when that check fails |
| Store.RemoveAsWrittenOverflows | src/store.js:273-283 | without strict mode every valid `removeItem` as written overflows the stack and never reaches storage |
| Store.ClearAsWrittenOverflows | src/store.js:291-302 | without strict mode every valid `clear` as written overflows the stack and never reaches storage |

## Left out

- `src/utils.js` is not part of this model. `getUrlParam` becomes the parameter `url`. The URL-mirroring branches of `setItem` and `getItem` (`updateUrlSearchKey`) are not modelled. Neither are `updateUrlSearch` and `updateUrlSearchByValue`. They only write the page URL.
- The browser's localStorage and sessionStorage are three maps from store key to bucket text. Persistence across sessions and quota limits are not modelled; a refused write is the input `writeFails`.
- Buckets.Encode: `JSON.stringify` followed by `JSON.parse` is modelled as the identity on a bucket's map. Members that JSON drops or changes (`undefined`, functions, non-finite numbers) are not modelled.
- JavaScript numbers are integers; floating point is not modelled.
- Property lookup on a parsed bucket reads own properties only. Inherited `Object.prototype` members are modelled only for the id whitelist (`Registry.ListedAsWritten`).
- Keys, types and scopes that JavaScript would coerce (a number as a key, a string `opts` destructured for `type`) are modelled only where the source relies on it (the self-call of `removeItem` and `clear`). Elsewhere keys and backend ids are strings.
- The `method` argument of `checkParams` and `checkStorageType` is always `setItem` or `getItem` at the call sites, so the "invalid method" branch is not modelled.
- The texts of error messages are not modelled; each error is its kind (`Values.Error`).
- A truthy `errCallBack` that is not a function would throw when called. The model only knows whether a callback is present (`hasCallback`).
- `strict` and `getterStrict` are modelled as booleans. Their JavaScript truthiness is taken as already evaluated.
- `undefined` as an entry of a fallback list takes the default type `sessionStorage`. It is modelled as the entry `Single("sessionStorage")`.
- MemoryStorages.MemoryStorage.SetItem: the value is a string. The `String(value)` conversion of other values is not modelled.
- The memory backend inside `Buckets.Backends` is a map of bucket texts of its own. It is not tied to the `MemoryStorage` class, whose own behaviour is modelled separately.
- Store.StoreKeyInjective: isolation between namespaces is proved only for namespaces without a dash, because a dash makes two namespaces collide (`Store.NamespaceCollision`).
- Store.Reentry: the stack depth is a parameter `depth`. The engine's actual limit is not modelled.
- `types` (the read map exposed on the facade) is a plain value; its make-up is covered by `Registry`. The default facade `factory()` is `Store.DefaultFactory`.
- MemoryStorages.MemoryStorage.GetItem: the dictionary holds own keys only. An inherited name such as `constructor` would make `this.storage[key] || null` return an inherited function. Setting `__proto__` would be ignored. Neither is modelled.
- MemoryStorages.MemoryStorage.SetItem: an assignment to `__proto__`, which JavaScript ignores, is modelled as an ordinary entry.
- Store.SetEffect: a `type` that is an `Object.prototype` name such as `toString` passes both whitelists as written. It throws a type error later, when the storage layer calls the missing backend (`getStoreByStoreKey`, `src/storages/index.js:56`), after resolution and the strict check. The model rejects it with the invalid-backend error before resolution. `Registry.ListedAsWritten` states the lookup as written.
- Store.ReadOne: a prototype-name `type` in the same way fails early with the invalid-backend error, where the source throws a type error at `src/storages/index.js:56` after resolution and the strict check.
- Store.RemoveEffect: with a prototype-name `type` the corrected removal would throw a type error at `src/storages/index.js:56` after resolution and the strict check; the model throws the invalid-backend error first.
- Store.ClearPageEffect: with a prototype-name `type` the corrected clear (`Storage.clear`, `src/storages/index.js:140-142`) raises nothing and writes nothing, because the type error of line 72 is caught and no callback is passed; the model throws the invalid-backend error.
- Store.RemoveAsWritten: a prototype-name `type` passes `checkParams` as written, so the self-call goes on as for a listed id; the model's checks (`Store.Admit`) stop it with the invalid-backend error.
- Store.ClearAsWritten: the same holds for `clear` as written.
- Scope.ResolveAtSeparator: a scope that ends in a separator whose last character is whitespace or `/` is not covered for separators longer than one character, because the trailing strip then cuts into the separator; one-character separators are covered by `Scope.ResolvePageAndSubpath`.
- Buckets.Property: strings are sequences of Unicode code points here, but of UTF-16 code units in JavaScript. The `length` and index names of a string bucket differ for text outside the Basic Multilingual Plane.
- Store.DefaultValue: a function default is modelled by the value it returns. A default that throws or has side effects is not modelled; the source calls it on every single-backend read (`src/store.js:239`).
- Buckets.Decode: bucket text that parses to a number, a boolean, an array or `null` is not modelled. The stored text is a JSON object, a JSON string or not JSON at all; an absent key reads as `null` and gives `{}`.

## Findings

| source | as written | input that shows it | evidently intended | confidence | as-written member | corrected member |
|---|---|---|---|---|---|---|
| src/storages/index.js:130 | `removeItem` deletes the item from the parsed bucket, then stores `itemKey` itself (`setStoreByStoreKey(type, storeKey, itemKey)`) as the bucket | bucket `{"a":1,"b":2}`, remove `b`: afterwards `a` reads as `undefined` and any later `setItem` on the bucket throws | store the pruned bucket, `setStoreByStoreKey(type, storeKey, store)` | high; not executed | Buckets.RemoveItemAsWrittenEffect, Buckets.RemoveAsWrittenLosesSiblings, Buckets.RemoveAsWrittenWipesBucket | Buckets.RemoveItemEffect, Buckets.ReadAfterRemove |
| src/store.js:283 | the facade's `removeItem` calls `store.removeItem`, the facade itself, with the backend id as key and a string as options; each nested call checks again and calls itself | any non-strict `removeItem("k", {type: "localStorage"})`: the self-call never ends, a stack overflow | call the storage layer, `storage.removeItem(type, storeKey, itemKey)` | high; not executed | Store.RemoveAsWritten, Store.RemoveAsWrittenOverflows | Store.RemoveEffect, Store.RemoveThenGet |
| src/store.js:302 | the facade's `clear` calls `store.clear`, the facade itself, in the same way | any non-strict `clear({})` overflows the stack | call the storage layer, `storage.clear(type, storeKey)` | high; not executed | Store.ClearAsWritten, Store.ClearAsWrittenOverflows | Store.ClearPageEffect, Store.ClearThenGet |
| src/storages/index.js:33-39 | the id maps are plain object literals, so `map[type]` also finds inherited `Object.prototype` members | `setItem("k", 1, {type: "toString"})` passes the whitelist, then fails on the missing backend | accept only the listed ids | medium; not executed | Registry.ListedAsWritten, Registry.PrototypeNamePassesAsWritten | Registry.CheckStorageType |
